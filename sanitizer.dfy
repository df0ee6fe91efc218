/** The input sanitisation and validation engine (`InputSanitizer` and
    `sanitize_input`): string transforms that neutralise dangerous text and
    accept/reject predicates with fixed messages. */
module Sanitizer {
  import opened Wrappers
  import opened PyStr

  // ---------------------------------------------------------------------------
  // Constants
  // ---------------------------------------------------------------------------

  /** A denylist entry: never empty. */
  type Pattern = p: string | |p| > 0 witness "_"

  /** `DANGEROUS_CHARS`, in the order the denylist pass visits them. */
  const DangerousChars: seq<Pattern> :=
    ["<", ">", "\"", "'", "\\", "/", ";", "--", "/*", "*/", "xp_", "sp_"]

  const DefaultMaxLength: int := 255

  const EmailEmpty: string := "L'email ne peut pas être vide."
  const EmailTooLong: string := "L'email est trop long (max 255 caractères)."
  const EmailInvalid: string := "Format d'email invalide."
  const PhoneInvalid: string :=
    "Format de téléphone invalide (8-20 caractères, chiffres et symboles autorisés: + - ( ) . espace)."
  const UsernameEmpty: string := "Le nom d'utilisateur ne peut pas être vide."
  const UsernameInvalid: string :=
    "Le nom d'utilisateur doit contenir 3-50 caractères alphanumériques, tirets ou underscores uniquement."
  const PasswordEmpty: string := "Le mot de passe ne peut pas être vide."
  const PasswordTooShort: string := "Le mot de passe doit contenir au moins 8 caractères."
  const PasswordTooLong: string := "Le mot de passe est trop long (max 128 caractères)."
  const PasswordTooWeak: string :=
    "Le mot de passe doit contenir au moins une majuscule, une minuscule et un chiffre."
  const NumberInvalid: string := "Format numérique invalide."

  // ---------------------------------------------------------------------------
  // sanitize_string, step by step
  // ---------------------------------------------------------------------------

  /** Python's `value[:n]`: a negative `n` counts from the end. */
  function Truncate(s: string, n: int): (r: string)
    ensures n >= 0 ==> |r| <= n
    ensures |r| <= |s| && r == s[..|r|]
    ensures n >= |s| ==> r == s
  {
    if n >= 0 then (if n < |s| then s[..n] else s)
    else if |s| + n > 0 then s[..|s| + n] else []
  }

  /** The characters `html.escape(value, quote=True)` rewrites. */
  predicate Escapable(c: char) {
    c == '&' || c == '<' || c == '>' || c == '"' || c == '\''
  }

  /** The entity `html.escape` puts in place of one character. */
  function EscapeChar(c: char): (e: string)
    ensures |e| >= 1
    ensures !Escapable(c) ==> e == [c]
    ensures forall x :: x in e ==> x != '<' && x != '>' && x != '"' && x != '\''
  {
    if c == '&' then "&amp;"
    else if c == '<' then "&lt;"
    else if c == '>' then "&gt;"
    else if c == '"' then "&quot;"
    else if c == '\'' then "&#x27;"
    else [c]
  }

  /** `html.escape(s)`: `&` first, then `<`, `>`, `"` and `'`; since no entity
      contains one of the later characters, this is a per-character rewrite. */
  function HtmlEscape(s: string): (r: string)
    ensures |r| >= |s|
    ensures (forall k :: 0 <= k < |s| ==> !Escapable(s[k])) ==> r == s
    ensures forall c :: c in r ==> c != '<' && c != '>' && c != '"' && c != '\''
  {
    if s == [] then [] else EscapeChar(s[0]) + HtmlEscape(s[1..])
  }

  /** The inverse of `HtmlEscape` on the five entities it produces. */
  function HtmlUnescape(s: string): string {
    if s == [] then []
    else if s[0] != '&' then [s[0]] + HtmlUnescape(s[1..])
    else if |s| >= 5 && s[..5] == "&amp;" then "&" + HtmlUnescape(s[5..])
    else if |s| >= 4 && s[..4] == "&lt;" then "<" + HtmlUnescape(s[4..])
    else if |s| >= 4 && s[..4] == "&gt;" then ">" + HtmlUnescape(s[4..])
    else if |s| >= 6 && s[..6] == "&quot;" then "\"" + HtmlUnescape(s[6..])
    else if |s| >= 6 && s[..6] == "&#x27;" then "'" + HtmlUnescape(s[6..])
    else [s[0]] + HtmlUnescape(s[1..])
  }

  /** Unescaping reads back one escaped character. */
  lemma HtmlUnescapeEntity(c: char, rest: string)
    ensures HtmlUnescape(EscapeChar(c) + rest) == [c] + HtmlUnescape(rest)
  {
    var e := EscapeChar(c);
    var t := e + rest;
    assert t[..|e|] == e && t[|e|..] == rest;
    if Escapable(c) {
      assert t[0] == '&';
      assert t[1] == e[1] && t[2] == e[2];
    } else {
      assert t[0] == c;
    }
  }

  /** Escaping loses nothing: unescaping gives back the text. */
  lemma {:induction false} HtmlEscapeRoundTrip(s: string)
    ensures HtmlUnescape(HtmlEscape(s)) == s
  {
    if s != [] {
      HtmlEscapeRoundTrip(s[1..]);
      HtmlUnescapeEntity(s[0], HtmlEscape(s[1..]));
    }
  }

  /** The control characters sanitize_string removes: code point below 32,
      except line feed, carriage return and tab. */
  predicate IsControl(c: char) {
    c < ' ' && c != '\n' && c != '\r' && c != '\t'
  }

  /** `''.join(char for char in s if ord(char) >= 32 or char in '\n\r\t')`. */
  function DropControl(s: string): (r: string)
    ensures |r| <= |s|
    ensures forall c :: c in r ==> c in s && !IsControl(c)
    ensures (forall k :: 0 <= k < |s| ==> !IsControl(s[k])) ==> r == s
  {
    if s == [] then []
    else (if IsControl(s[0]) then [] else [s[0]]) + DropControl(s[1..])
  }

  /** `re.sub(re.escape(pat), '_', s, flags=re.IGNORECASE)`: scanning left to
      right, every leftmost non-overlapping case-insensitive occurrence of
      `pat` becomes a single `_`. */
  function ReplaceIgnoreCase(s: string, pat: string): (r: string)
    requires |pat| > 0
    ensures |r| <= |s|
    ensures forall c :: c in r ==> c == '_' || c in s
    ensures s != [] ==> r != [] && (r[0] == '_' || r[0] == s[0])
    decreases |s|
  {
    if |s| < |pat| then s
    else if Lower(s[..|pat|]) == Lower(pat) then "_" + ReplaceIgnoreCase(s[|pat|..], pat)
    else [s[0]] + ReplaceIgnoreCase(s[1..], pat)
  }

  /** The denylist pass: each pattern of `pats`, in order, replaced in the
      text left by the previous ones. */
  function Neutralize(s: string, pats: seq<Pattern>): (r: string)
    ensures |r| <= |s|
    ensures forall c :: c in r ==> c == '_' || c in s
    decreases |pats|
  {
    if pats == [] then s else Neutralize(ReplaceIgnoreCase(s, pats[0]), pats[1..])
  }

  /** No two adjacent `-`, i.e. no substring `--`. */
  predicate NoDoubleDash(s: string) {
    forall k :: 0 <= k < |s| - 1 ==> !(s[k] == '-' && s[k + 1] == '-')
  }

  /** What the pipeline guarantees of its output. */
  predicate Safe(s: string) {
    && (forall c :: c in s ==>
          c != '<' && c != '>' && c != '"' && c != '\'' && c != '\\'
          && c != '/' && c != ';' && !IsControl(c))
    && NoDoubleDash(s)
  }

  /** `InputSanitizer.sanitize_string(value, max_length, allow_special)` as a
      value: strip, truncate, escape (unless `allow_special`), drop control
      characters, then the denylist pass. */
  function Sanitized(value: string, maxLength: int, allowSpecial: bool): string {
    if value == [] then []
    else
      var trimmed := Truncate(Strip(value), maxLength);
      var escaped := if allowSpecial then trimmed else HtmlEscape(trimmed);
      Neutralize(DropControl(escaped), DangerousChars)
  }

  /** `InputSanitizer.sanitize_string`: reassigns the value step by step and
      runs the denylist loop, replacing a pattern only when the lower-cased
      text contains the lower-cased pattern. */
  method SanitizeString(value: string, maxLength: int, allowSpecial: bool) returns (r: string)
    ensures r == Sanitized(value, maxLength, allowSpecial)
    ensures Safe(r)
  {
    if value == [] {
      return "";
    }
    var v := Strip(value);
    v := Truncate(v, maxLength);
    if !allowSpecial {
      v := HtmlEscape(v);
    }
    v := DropControl(v);
    r := DenylistPass(v, DangerousChars);
    SanitizedIsSafe(value, maxLength, allowSpecial);
  }

  /** The `for dangerous in DANGEROUS_CHARS` loop of `sanitize_string`. */
  method DenylistPass(value: string, pats: seq<Pattern>) returns (r: string)
    ensures r == Neutralize(value, pats)
  {
    r := value;
    var i := 0;
    while i < |pats|
      invariant 0 <= i <= |pats|
      invariant Neutralize(r, pats[i..]) == Neutralize(value, pats)
    {
      var dangerous := pats[i];
      NeutralizeStep(r, pats, i);
      if Contains(Lower(r), Lower(dangerous)) {
        r := ReplaceIgnoreCase(r, dangerous);
      } else {
        ReplaceAbsentIsIdentity(r, dangerous);
      }
      i := i + 1;
    }
    assert pats[|pats|..] == [];
  }

  // ---------------------------------------------------------------------------
  // Lemmas about the denylist pass
  // ---------------------------------------------------------------------------

  lemma NeutralizeStep(s: string, pats: seq<Pattern>, i: nat)
    requires i < |pats|
    ensures Neutralize(s, pats[i..]) == Neutralize(ReplaceIgnoreCase(s, pats[i]), pats[i + 1..])
  {
    assert pats[i..][1..] == pats[i + 1..];
  }

  lemma LowerPrefix(s: string, n: nat)
    requires n <= |s|
    ensures Lower(s)[..n] == Lower(s[..n])
  {
  }

  /** The `if dangerous.lower() in value.lower()` guard only skips passes that
      would change nothing. */
  lemma {:induction false} ReplaceAbsentIsIdentity(s: string, pat: string)
    requires |pat| > 0
    requires !Contains(Lower(s), Lower(pat))
    ensures ReplaceIgnoreCase(s, pat) == s
    decreases |s|
  {
    if |s| >= |pat| {
      LowerPrefix(s, |pat|);
      assert Lower(s)[1..] == Lower(s[1..]);
      ReplaceAbsentIsIdentity(s[1..], pat);
    }
  }

  /** After a single-character pass for a non-letter `c` other than `_`, no
      `c` is left. */
  lemma {:induction false} ReplaceRemovesChar(s: string, c: char)
    requires c != '_' && !IsAlpha(c)
    ensures c !in ReplaceIgnoreCase(s, [c])
    decreases |s|
  {
    if s != [] {
      if s[0] == c {
        assert Lower(s[..1]) == [c] == Lower([c]);
      }
      ReplaceRemovesChar(s[1..], c);
    }
  }

  lemma DashesLower(t: string)
    requires |t| == 2
    ensures t[0] == '-' && t[1] == '-' ==> Lower(t) == Lower("--")
  {
  }

  /** After the `--` pass no `--` is left: a `-` that stays is never followed
      by another. */
  lemma {:induction false} ReplaceRemovesDoubleDash(s: string)
    ensures NoDoubleDash(ReplaceIgnoreCase(s, "--"))
    decreases |s|
  {
    if |s| >= 2 {
      if Lower(s[..2]) == Lower("--") {
        ReplaceRemovesDoubleDash(s[2..]);
      } else {
        ReplaceRemovesDoubleDash(s[1..]);
        var tail := ReplaceIgnoreCase(s[1..], "--");
        DashesLower(s[..2]);
        assert ReplaceIgnoreCase(s, "--") == [s[0]] + tail;
      }
    }
  }

  /** A pass never creates `--`: what it inserts is `_`. */
  lemma {:induction false} ReplaceKeepsNoDoubleDash(s: string, pat: string)
    requires |pat| > 0 && NoDoubleDash(s)
    ensures NoDoubleDash(ReplaceIgnoreCase(s, pat))
    decreases |s|
  {
    if |s| >= |pat| {
      if Lower(s[..|pat|]) == Lower(pat) {
        ReplaceKeepsNoDoubleDash(s[|pat|..], pat);
      } else {
        ReplaceKeepsNoDoubleDash(s[1..], pat);
        assert ReplaceIgnoreCase(s, pat) == [s[0]] + ReplaceIgnoreCase(s[1..], pat);
      }
    }
  }

  /** A character other than `_` that is absent stays absent. */
  lemma NeutralizeKeepsAbsent(s: string, pats: seq<Pattern>, c: char)
    requires c != '_' && c !in s
    ensures c !in Neutralize(s, pats)
  {
  }

  /** A non-letter listed as a pattern of its own is absent afterwards. */
  lemma {:induction false} NeutralizeRemovesChar(s: string, pats: seq<Pattern>, i: nat, c: char)
    requires i < |pats| && pats[i] == [c] && c != '_' && !IsAlpha(c)
    ensures c !in Neutralize(s, pats)
    decreases i
  {
    var next := ReplaceIgnoreCase(s, pats[0]);
    if i == 0 {
      ReplaceRemovesChar(s, c);
      NeutralizeKeepsAbsent(next, pats[1..], c);
    } else {
      NeutralizeRemovesChar(next, pats[1..], i - 1, c);
    }
  }

  lemma {:induction false} NeutralizeKeepsNoDoubleDash(s: string, pats: seq<Pattern>)
    requires NoDoubleDash(s)
    ensures NoDoubleDash(Neutralize(s, pats))
    decreases |pats|
  {
    if pats != [] {
      ReplaceKeepsNoDoubleDash(s, pats[0]);
      NeutralizeKeepsNoDoubleDash(ReplaceIgnoreCase(s, pats[0]), pats[1..]);
    }
  }

  /** With `--` among the patterns, the result has no `--`. */
  lemma {:induction false} NeutralizeRemovesDoubleDash(s: string, pats: seq<Pattern>, i: nat)
    requires i < |pats| && pats[i] == "--"
    ensures NoDoubleDash(Neutralize(s, pats))
    decreases i
  {
    var next := ReplaceIgnoreCase(s, pats[0]);
    if i == 0 {
      ReplaceRemovesDoubleDash(s);
      NeutralizeKeepsNoDoubleDash(next, pats[1..]);
    } else {
      NeutralizeRemovesDoubleDash(next, pats[1..], i - 1);
    }
  }

  /** A pattern list that occurs nowhere leaves the text as it is. */
  lemma {:induction false} NeutralizeAbsentIsIdentity(s: string, pats: seq<Pattern>)
    requires forall k :: 0 <= k < |pats| ==> !Contains(Lower(s), Lower(pats[k]))
    ensures Neutralize(s, pats) == s
    decreases |pats|
  {
    if pats != [] {
      ReplaceAbsentIsIdentity(s, pats[0]);
      NeutralizeAbsentIsIdentity(s, pats[1..]);
    }
  }

  // ---------------------------------------------------------------------------
  // Properties of sanitize_string
  // ---------------------------------------------------------------------------

  /** Whatever the input and whatever `allow_special`, the output contains no
      `<`, `>`, `"`, `'`, `\`, `/`, `;`, no `--` and no control character other
      than line feed, carriage return and tab. */
  lemma SanitizedIsSafe(value: string, maxLength: int, allowSpecial: bool)
    ensures Safe(Sanitized(value, maxLength, allowSpecial))
  {
    if value != [] {
      var trimmed := Truncate(Strip(value), maxLength);
      var escaped := if allowSpecial then trimmed else HtmlEscape(trimmed);
      DenylistOutputIsSafe(DropControl(escaped));
    }
  }

  /** The denylist pass over text without control characters is safe. */
  lemma DenylistOutputIsSafe(cleaned: string)
    requires forall c :: c in cleaned ==> !IsControl(c)
    ensures Safe(Neutralize(cleaned, DangerousChars))
  {
    var r := Neutralize(cleaned, DangerousChars);
    DenylistRemovesSingles(cleaned);
    DangerousCharsHeads();
    NeutralizeRemovesDoubleDash(cleaned, DangerousChars, 7);
    SafeOfParts(r, cleaned);
  }

  /** The seven one-character entries are absent from the output. */
  lemma DenylistRemovesSingles(s: string)
    ensures var r := Neutralize(s, DangerousChars);
      '<' !in r && '>' !in r && '"' !in r && '\'' !in r && '\\' !in r && '/' !in r && ';' !in r
  {
    SinglesAbsent(s);
    SinglesNamed(Neutralize(s, DangerousChars));
  }

  lemma SinglesAbsent(s: string)
    ensures forall k :: 0 <= k < 7 ==> DangerousChars[k][0] !in Neutralize(s, DangerousChars)
  {
    SingleEntries();
    forall k | 0 <= k < 7
      ensures DangerousChars[k][0] !in Neutralize(s, DangerousChars)
    {
      NeutralizeRemovesChar(s, DangerousChars, k, DangerousChars[k][0]);
    }
  }

  /** The first seven entries are single characters that are neither a
      letter nor `_`. */
  lemma SingleEntries()
    ensures forall k :: 0 <= k < 7 ==>
      DangerousChars[k] == [DangerousChars[k][0]] && DangerousChars[k][0] != '_' && !IsAlpha(DangerousChars[k][0])
  {
    DangerousCharsHeads();
  }

  /** The first seven entries name the seven characters. */
  lemma SinglesNamed(r: string)
    requires forall k :: 0 <= k < 7 ==> DangerousChars[k][0] !in r
    ensures '<' !in r && '>' !in r && '"' !in r && '\'' !in r && '\\' !in r && '/' !in r && ';' !in r
  {
    DangerousCharsHeads();
    assert DangerousChars[0][0] !in r && DangerousChars[1][0] !in r && DangerousChars[2][0] !in r;
    assert DangerousChars[3][0] !in r && DangerousChars[4][0] !in r && DangerousChars[5][0] !in r;
    assert DangerousChars[6][0] !in r;
  }

  lemma SafeOfParts(r: string, cleaned: string)
    requires '<' !in r && '>' !in r && '"' !in r && '\'' !in r && '\\' !in r && '/' !in r && ';' !in r
    requires forall c :: c in r ==> c == '_' || c in cleaned
    requires forall c :: c in cleaned ==> !IsControl(c)
    requires NoDoubleDash(r)
    ensures Safe(r)
  {
  }

  lemma DangerousCharsHeads()
    ensures var D := DangerousChars;
      && D[0][0] == '<' && D[1][0] == '>' && D[2][0] == '"' && D[3][0] == '\''
      && D[4][0] == '\\' && D[5][0] == '/' && D[6][0] == ';' && D[7] == "--"
  {
  }

  /** Truncation runs before escaping, so the bound `max_length` holds
      when escaping adds nothing: with `allow_special`, or when the truncated
      text has none of `& < > " '` (whatever follows the cut). */
  lemma SanitizedLengthBound(value: string, maxLength: int, allowSpecial: bool)
    requires maxLength >= 0
    requires allowSpecial || forall k :: 0 <= k < |Truncate(Strip(value), maxLength)| ==>
      !Escapable(Truncate(Strip(value), maxLength)[k])
    ensures |Sanitized(value, maxLength, allowSpecial)| <= maxLength
  {
    if value != [] {
      var trimmed := Truncate(Strip(value), maxLength);
      var escaped := if allowSpecial then trimmed else HtmlEscape(trimmed);
      assert escaped == trimmed;
      assert |DropControl(escaped)| <= maxLength;
    }
  }

  /** The cut protects the bound: `"abc<"` with `max_length = 3` loses its
      `<` before escaping and stays within three characters. */
  lemma TruncationKeepsBound()
    ensures |Sanitized("abc<", 3, false)| <= 3
  {
    AbcTrimmed();
    AbcIsPlain();
    PlainCutKeepsBound("abc<", 3, "abc");
  }

  /** `SanitizedLengthBound` without `allow_special`, for a known cut `t`. */
  lemma PlainCutKeepsBound(value: string, maxLength: int, t: string)
    requires maxLength >= 0 && Truncate(Strip(value), maxLength) == t
    requires forall k :: 0 <= k < |t| ==> !Escapable(t[k])
    ensures |Sanitized(value, maxLength, false)| <= maxLength
  {
    SanitizedLengthBound(value, maxLength, false);
  }

  lemma AbcTrimmed()
    ensures Truncate(Strip("abc<"), 3) == "abc"
  {
    StripOfStripped("abc<");
  }

  lemma AbcIsPlain()
    ensures var s := "abc"; forall k :: 0 <= k < |s| ==> !Escapable(s[k])
  {
  }

  /** An input with nothing to escape, to drop or to replace, that fits in
      `max_length` once stripped, comes back stripped and otherwise unchanged. */
  lemma SanitizedCleanInputIsStripped(value: string, maxLength: int, allowSpecial: bool)
    requires |Strip(value)| <= maxLength
    requires forall k :: 0 <= k < |Strip(value)| ==> !Escapable(Strip(value)[k]) && !IsControl(Strip(value)[k])
    requires forall k :: 0 <= k < |DangerousChars| ==> !Contains(Lower(Strip(value)), Lower(DangerousChars[k]))
    ensures Sanitized(value, maxLength, allowSpecial) == Strip(value)
  {
    if value != [] {
      var t := Strip(value);
      assert Truncate(t, maxLength) == t;
      CleanTextPassesThrough(t);
      NeutralizeAbsentIsIdentity(t, DangerousChars);
    }
  }

  /** Text with nothing to escape and no control character is kept by the
      escaping and the control-character passes. */
  lemma CleanTextPassesThrough(t: string)
    requires forall k :: 0 <= k < |t| ==> !Escapable(t[k]) && !IsControl(t[k])
    ensures HtmlEscape(t) == t && DropControl(t) == t
  {
  }

  /** A pattern whose first character does not occur is not contained. */
  lemma {:induction false} AbsentFirstCharNotContained(s: string, pat: string)
    requires |pat| > 0 && LowerChar(pat[0]) !in Lower(s)
    ensures !Contains(Lower(s), Lower(pat))
    decreases |s|
  {
    if |pat| <= |s| {
      assert Lower(s)[0] in Lower(s);
      assert Lower(s)[1..] == Lower(s[1..]);
      assert forall c :: c in Lower(s[1..]) ==> c in Lower(s);
      AbsentFirstCharNotContained(s[1..], pat);
    }
  }

  /** Replacing `sp_` after `xp_` can leave a fresh `xp_` behind. */
  lemma DenylistCanCreateXp()
    ensures Sanitized("xpsp_", DefaultMaxLength, false) == "xp_"
  {
    XpspReachesDenylist();
    XpspSkipsFirstTen();
    XpspLastTwo();
  }

  lemma XpspReachesDenylist()
    ensures Sanitized("xpsp_", DefaultMaxLength, false) == Neutralize("xpsp_", DangerousChars)
  {
    XpspTrimmed();
    XpspCleaned();
    SanitizedUnfold("xpsp_", DefaultMaxLength, false, "xpsp_");
  }

  lemma XpspTrimmed()
    ensures Truncate(Strip("xpsp_"), DefaultMaxLength) == "xpsp_"
  {
    StripOfStripped("xpsp_");
  }

  lemma XpspCleaned()
    ensures DropControl(HtmlEscape("xpsp_")) == "xpsp_"
  {
    XpspIsPlain();
    CleanTextPassesThrough("xpsp_");
  }

  lemma XpspIsPlain()
    ensures var s := "xpsp_"; forall k :: 0 <= k < |s| ==> !Escapable(s[k]) && !IsControl(s[k])
  {
  }

  lemma XpspSkipsFirstTen()
    ensures Neutralize("xpsp_", DangerousChars) == Neutralize("xpsp_", ["xp_", "sp_"])
  {
    var s := "xpsp_";
    var D := DangerousChars;
    LowerOfLowerCase(s);
    forall k | 0 <= k < 10
      ensures !Contains(Lower(s), Lower(D[k]))
    {
      AbsentFirstCharNotContained(s, D[k]);
    }
    NeutralizePrefixSkip(s, D, 10);
    assert D[10..] == ["xp_", "sp_"];
  }

  lemma XpspHasNoXp()
    ensures ReplaceIgnoreCase("xpsp_", "xp_") == "xpsp_"
  {
    var s := "xpsp_";
    LowerOfLowerCase(s);
    LowerOfLowerCase("xp_");
    assert s[..3] != "xp_" by { assert s[..3][2] != "xp_"[2]; }
    assert s[1..][..3] != "xp_" by { assert s[1..][..3][0] != "xp_"[0]; }
    assert s[1..][1..][..3] != "xp_" by { assert s[1..][1..][..3][0] != "xp_"[0]; }
    assert !Contains(s[1..][1..][1..], "xp_");
    assert !Contains(s, "xp_");
    ReplaceAbsentIsIdentity(s, "xp_");
  }

  lemma XpspLastTwo()
    ensures Neutralize("xpsp_", ["xp_", "sp_"]) == "xp_"
  {
    XpspHasNoXp();
    XpspReplaceSp();
    assert ["xp_", "sp_"][1..] == ["sp_"];
  }

  lemma XpspReplaceSp()
    ensures ReplaceIgnoreCase("xpsp_", "sp_") == "xp_"
  {
    LowerOfLowerCase("sp_");
    assert ReplaceIgnoreCase("sp_", "sp_") == "_";
    assert ReplaceIgnoreCase("psp_", "sp_") == "p_";
  }

  /** Escaping runs after truncation: `"<"` cut to one character still
      comes out as four. */
  lemma EscapingCanExceedMaxLength()
    ensures Sanitized("<", 1, false) == "&lt_"
  {
    LtReachesDenylist();
    LtSkipsFirstSix();
    LtSemicolon();
    LtRestAbsent();
  }

  lemma LtReachesDenylist()
    ensures Sanitized("<", 1, false) == Neutralize("&lt;", DangerousChars)
  {
    LtEscaped();
    var e := "&lt;";
    assert forall k :: 0 <= k < |e| ==> !IsControl(e[k]);
    assert DropControl(e) == e;
    SanitizedUnfold("<", 1, false, e);
  }

  lemma LtEscaped()
    ensures HtmlEscape(Truncate(Strip("<"), 1)) == "&lt;"
  {
    StripOfStripped("<");
    assert Truncate("<", 1) == "<";
    LtHtml();
  }

  lemma LtHtml()
    ensures HtmlEscape("<") == "&lt;"
  {
    var s := "<";
    assert EscapeChar('<') == "&lt;";
    assert HtmlEscape(s) == EscapeChar(s[0]) + HtmlEscape(s[1..]);
  }

  /** `Sanitized` is the denylist pass over the cleaned text. */
  lemma SanitizedUnfold(value: string, maxLength: int, allowSpecial: bool, cleaned: string)
    requires value != []
    requires var t := Truncate(Strip(value), maxLength);
      cleaned == DropControl(if allowSpecial then t else HtmlEscape(t))
    ensures Sanitized(value, maxLength, allowSpecial) == Neutralize(cleaned, DangerousChars)
  {
  }

  lemma LtSkipsFirstSix()
    ensures Neutralize("&lt;", DangerousChars) == Neutralize("&lt;", DangerousChars[6..])
  {
    var s := "&lt;";
    var D := DangerousChars;
    LowerOfLowerCase(s);
    forall k | 0 <= k < 6
      ensures !Contains(Lower(s), Lower(D[k]))
    {
      AbsentFirstCharNotContained(s, D[k]);
    }
    NeutralizePrefixSkip(s, D, 6);
  }

  lemma LtSemicolon()
    ensures Neutralize("&lt;", DangerousChars[6..]) == Neutralize("&lt_", DangerousChars[7..])
  {
    NeutralizeStep("&lt;", DangerousChars, 6);
    assert DangerousChars[6] == ";";
    LtReplaceSemicolon();
  }

  lemma LtReplaceSemicolon()
    ensures ReplaceIgnoreCase("&lt;", ";") == "&lt_"
  {
    LowerOfLowerCase(";");
    assert ReplaceIgnoreCase(";", ";") == "_";
    assert ReplaceIgnoreCase("t;", ";") == "t_";
    assert ReplaceIgnoreCase("lt;", ";") == "lt_";
  }

  lemma LtRestAbsent()
    ensures Neutralize("&lt_", DangerousChars[7..]) == "&lt_"
  {
    var s := "&lt_";
    var R := DangerousChars[7..];
    assert R == ["--", "/*", "*/", "xp_", "sp_"];
    LowerOfLowerCase(s);
    forall k | 0 <= k < |R|
      ensures !Contains(Lower(s), Lower(R[k]))
    {
      AbsentFirstCharNotContained(s, R[k]);
    }
    NeutralizeAbsentIsIdentity(s, R);
  }

  /** Patterns that change nothing can be skipped. */
  lemma {:induction false} NeutralizePrefixSkip(s: string, pats: seq<Pattern>, n: nat)
    requires n <= |pats|
    requires forall k :: 0 <= k < n ==> !Contains(Lower(s), Lower(pats[k]))
    ensures Neutralize(s, pats) == Neutralize(s, pats[n..])
    decreases n
  {
    if n > 0 {
      ReplaceAbsentIsIdentity(s, pats[0]);
      assert pats[1..][n - 1..] == pats[n..];
      NeutralizePrefixSkip(s, pats[1..], n - 1);
    }
  }

  // ---------------------------------------------------------------------------
  // sanitize_sql_like
  // ---------------------------------------------------------------------------

  /** `s.replace(c, sub)` for a single character `c`. */
  function ReplaceChar(s: string, c: char, sub: string): (r: string)
    ensures c !in sub ==> c !in r
  {
    if s == [] then [] else (if s[0] == c then sub else [s[0]]) + ReplaceChar(s[1..], c, sub)
  }

  lemma {:induction false} ReplaceCharConcat(a: string, b: string, c: char, sub: string)
    ensures ReplaceChar(a + b, c, sub) == ReplaceChar(a, c, sub) + ReplaceChar(b, c, sub)
  {
    if a != [] {
      assert (a + b)[1..] == a[1..] + b;
      ReplaceCharConcat(a[1..], b, c, sub);
    } else {
      assert a + b == b;
    }
  }

  /** The wildcard characters of a SQL `LIKE` pattern, and its escape. */
  predicate LikeSpecial(c: char) { c == '\\' || c == '%' || c == '_' }

  /** Reference definition: every `\`, `%` and `_` gets a backslash in front. */
  function LikeEscape(s: string): string {
    if s == [] then []
    else (if LikeSpecial(s[0]) then ['\\', s[0]] else [s[0]]) + LikeEscape(s[1..])
  }

  /** The matching unescape: a backslash takes the next character literally. */
  function LikeUnescape(s: string): string {
    if s == [] then []
    else if s[0] == '\\' && |s| >= 2 then [s[1]] + LikeUnescape(s[2..])
    else [s[0]] + LikeUnescape(s[1..])
  }

  /** The three chained `replace` calls escape each special character once:
      the backslashes the first call adds are not touched by the other two. */
  lemma {:induction false} LikeReplaceChain(s: string)
    ensures ReplaceChar(ReplaceChar(ReplaceChar(s, '\\', "\\\\"), '%', "\\%"), '_', "\\_") == LikeEscape(s)
  {
    if s != [] {
      var x, t := [s[0]], s[1..];
      assert s == x + t;
      ReplaceCharConcat(x, t, '\\', "\\\\");
      var a, b := ReplaceChar(x, '\\', "\\\\"), ReplaceChar(t, '\\', "\\\\");
      ReplaceCharConcat(a, b, '%', "\\%");
      var a2, b2 := ReplaceChar(a, '%', "\\%"), ReplaceChar(b, '%', "\\%");
      ReplaceCharConcat(a2, b2, '_', "\\_");
      LikeReplaceChain(t);
      assert ReplaceChar(a2, '_', "\\_") == (if LikeSpecial(s[0]) then ['\\', s[0]] else [s[0]]);
    }
  }

  /** `InputSanitizer.sanitize_sql_like`. */
  method SanitizeSqlLike(value: string) returns (r: string)
    ensures r == LikeEscape(value)
  {
    if value == [] {
      return "";
    }
    r := ReplaceChar(value, '\\', "\\\\");
    r := ReplaceChar(r, '%', "\\%");
    r := ReplaceChar(r, '_', "\\_");
    LikeReplaceChain(value);
  }

  /** Unescaping the escaped pattern gives back the search text. */
  lemma {:induction false} LikeEscapeRoundTrip(s: string)
    ensures LikeUnescape(LikeEscape(s)) == s
  {
    if s != [] {
      var head := if LikeSpecial(s[0]) then ['\\', s[0]] else [s[0]];
      var rest := LikeEscape(s[1..]);
      assert LikeEscape(s) == head + rest;
      assert (head + rest)[|head|..] == rest;
      LikeEscapeRoundTrip(s[1..]);
    }
  }

  /** One extra character per `\`, `%` and `_`. */
  lemma {:induction false} LikeEscapeLength(s: string)
    ensures |LikeEscape(s)| == |s| + Count(s, '\\') + Count(s, '%') + Count(s, '_')
  {
    if s != [] {
      LikeEscapeLength(s[1..]);
    }
  }

  /** In the escaped text every `%` and `_` is preceded by a backslash. */
  lemma {:induction false} LikeEscapeGuardsWildcards(s: string, k: nat)
    requires k < |LikeEscape(s)| && (LikeEscape(s)[k] == '%' || LikeEscape(s)[k] == '_')
    ensures k > 0 && LikeEscape(s)[k - 1] == '\\'
  {
    var head := if LikeSpecial(s[0]) then ['\\', s[0]] else [s[0]];
    var rest := LikeEscape(s[1..]);
    assert LikeEscape(s) == head + rest;
    if k >= |head| {
      LikeEscapeGuardsWildcards(s[1..], k - |head|);
    }
  }

  // ---------------------------------------------------------------------------
  // Validators
  // ---------------------------------------------------------------------------

  /** The `(is_valid, error_message)` pair the validators return. */
  datatype Verdict = Verdict(valid: bool, error: Option<string>)

  /** A full match of `^[cls]{lo,hi}$`, consuming one character at a time. */
  function MatchesRepeat(s: string, cls: char -> bool, lo: int, hi: int): (b: bool)
    ensures b <==> lo <= |s| <= hi && forall k :: 0 <= k < |s| ==> cls(s[k])
    decreases |s|
  {
    if s == [] then lo <= 0 <= hi
    else 1 <= hi && cls(s[0]) && MatchesRepeat(s[1..], cls, lo - 1, hi - 1)
  }

  /** `[a-zA-Z0-9._%+-]`, the local part of an email. */
  predicate EmailLocalChar(c: char) {
    IsAlnum(c) || c == '.' || c == '_' || c == '%' || c == '+' || c == '-'
  }

  /** `[a-zA-Z0-9.-]`, the domain of an email. */
  predicate EmailDomainChar(c: char) { IsAlnum(c) || c == '.' || c == '-' }

  /** `EMAIL_PATTERN` matches with `@` at `at` and the `\.` at `dot`. */
  predicate EmailMatchAt(s: string, at: int, dot: int) {
    && 0 < at && at + 1 < dot && dot + 2 < |s|
    && s[at] == '@' && s[dot] == '.'
    && (forall k :: 0 <= k < at ==> EmailLocalChar(s[k]))
    && (forall k :: at < k < dot ==> EmailDomainChar(s[k]))
    && (forall k :: dot < k < |s| ==> IsAlpha(s[k]))
  }

  /** `EMAIL_PATTERN.match(s)`, `^[a-zA-Z0-9._%+-]+@[a-zA-Z0-9.-]+\.[a-zA-Z]{2,}$`:
      some choice of the `@` and of the dot makes every part fit. */
  predicate EmailPattern(s: string) {
    exists at, dot | 0 <= at < dot < |s| :: EmailMatchAt(s, at, dot)
  }

  /** What `validate_email` matches: the stripped, lower-cased input. */
  function NormalizeEmail(email: string): string {
    Lower(Strip(email))
  }

  /** `InputSanitizer.validate_email`. */
  function ValidateEmail(email: string): (r: Verdict)
    ensures r.valid <==> r.error.None?
  {
    if email == [] then Verdict(false, Some(EmailEmpty))
    else
      var e := NormalizeEmail(email);
      if |e| > 255 then Verdict(false, Some(EmailTooLong))
      else if !EmailPattern(e) then Verdict(false, Some(EmailInvalid))
      else Verdict(true, None)
  }

  /** An accepted email, once normalised, is at most 255 characters, has no
      upper-case letter, exactly one `@` with a non-empty local part before it,
      and ends in a label of at least two letters after its last dot. */
  lemma EmailAcceptedShape(email: string)
    requires ValidateEmail(email).valid
    ensures var e := NormalizeEmail(email);
      && |e| <= 255
      && Count(e, '@') == 1 && e[0] != '@'
      && (forall k :: 0 <= k < |e| ==> !IsUpper(e[k]))
      && exists dot :: 0 < dot < |e| - 2 && e[dot] == '.'
           && (forall k :: dot < k < |e| ==> IsLower(e[k]))
  {
    var e := NormalizeEmail(email);
    var at, dot :| 0 <= at < dot < |e| && EmailMatchAt(e, at, dot);
    EmailMatchHasOneAt(e, at, dot);
    LowerHasNoUpper(Strip(email));
    EmailMatchEndsLower(e, at, dot);
  }

  /** A match has exactly one `@`, the one it chose. */
  lemma EmailMatchHasOneAt(e: string, at: int, dot: int)
    requires EmailMatchAt(e, at, dot)
    ensures Count(e, '@') == 1 && e[0] != '@'
  {
    CountAround(e, at, '@');
    assert '@' !in e[..at] by {
      forall k | 0 <= k < at ensures e[..at][k] != '@' {
        assert EmailLocalChar(e[k]);
      }
    }
    var tail := e[at + 1..];
    assert '@' !in tail by {
      forall k | 0 <= k < |tail| ensures tail[k] != '@' {
        var j := at + 1 + k;
        assert tail[k] == e[j];
        if j < dot { assert EmailDomainChar(e[j]); } else if j > dot { assert IsAlpha(e[j]); }
      }
    }
  }

  /** On lower-case text the letters after the dot are lower-case. */
  lemma EmailMatchEndsLower(e: string, at: int, dot: int)
    requires EmailMatchAt(e, at, dot)
    requires forall k :: 0 <= k < |e| ==> !IsUpper(e[k])
    ensures 0 < dot < |e| - 2 && e[dot] == '.' && forall k :: dot < k < |e| ==> IsLower(e[k])
  {
    forall k | dot < k < |e| ensures IsLower(e[k]) {
      assert IsAlpha(e[k]);
    }
  }

  /** On text that is already stripped and lower-case, validate_email is
      the length bound and the pattern. */
  lemma EmailOnNormalized(s: string)
    requires s == [] || (!IsSpace(s[0]) && !IsSpace(s[|s| - 1]))
    requires forall k :: 0 <= k < |s| ==> !IsUpper(s[k])
    ensures ValidateEmail(s).valid == (s != [] && |s| <= 255 && EmailPattern(s))
  {
    StripOfStripped(s);
    LowerOfLowerCase(s);
    EmailOnStrippedLower(s);
  }

  lemma EmailOnStrippedLower(s: string)
    requires Strip(s) == s && Lower(s) == s
    ensures ValidateEmail(s).valid == (s != [] && |s| <= 255 && EmailPattern(s))
  {
    assert NormalizeEmail(s) == s;
  }

  /** Examples of accepted addresses. */
  lemma EmailAcceptedShort()
    ensures ValidateEmail("a@b.co").valid
  {
    var s := "a@b.co";
    assert EmailMatchAt(s, 1, 3);
    EmailOnNormalized(s);
  }

  lemma EmailAcceptedPlus()
    ensures ValidateEmail("j+k@x.fr").valid
  {
    var s := "j+k@x.fr";
    assert EmailMatchAt(s, 3, 5);
    EmailOnNormalized(s);
  }

  /** Examples of rejected addresses. */
  lemma EmailRejectedNoAt()
    ensures !ValidateEmail("not-an-email").valid
  {
    EmailOnNormalized("not-an-email");
    assert forall k :: 0 <= k < |"not-an-email"| ==> "not-an-email"[k] != '@';
  }

  lemma EmailRejectedNoDot()
    ensures !ValidateEmail("user@domain").valid
  {
    EmailOnNormalized("user@domain");
    assert forall k :: 0 <= k < |"user@domain"| ==> "user@domain"[k] != '.';
  }

  /** `[\d\s\-\+\(\)\.]`, the characters of a phone number. */
  predicate PhoneChar(c: char) {
    IsDigit(c) || IsSpace(c) || c == '-' || c == '+' || c == '(' || c == ')' || c == '.'
  }

  /** `InputSanitizer.validate_phone`: the phone is optional. */
  function ValidatePhone(phone: string): (r: Verdict)
    ensures r.valid <==> r.error.None?
    ensures r.valid <==> (phone == [] ||
      (8 <= |Strip(phone)| <= 20 && forall k :: 0 <= k < |Strip(phone)| ==> PhoneChar(Strip(phone)[k])))
  {
    if phone == [] then Verdict(true, None)
    else if !MatchesRepeat(Strip(phone), PhoneChar, 8, 20) then Verdict(false, Some(PhoneInvalid))
    else Verdict(true, None)
  }

  /** Only the empty string is optional: blanks strip to nothing and fail. */
  lemma BlankPhoneRejected(phone: string)
    requires phone != [] && AllSpace(phone)
    ensures ValidatePhone(phone) == Verdict(false, Some(PhoneInvalid))
  {
    StripCharacterised(phone);
  }

  /** `[a-zA-Z0-9_-]`, the characters of a username. */
  predicate UsernameChar(c: char) { IsAlnum(c) || c == '_' || c == '-' }

  /** `InputSanitizer.validate_username`. */
  function ValidateUsername(username: string): (r: Verdict)
    ensures r.valid <==> r.error.None?
    ensures r.valid <==>
      3 <= |Strip(username)| <= 50 && forall k :: 0 <= k < |Strip(username)| ==> UsernameChar(Strip(username)[k])
    ensures username == [] ==> r.error == Some(UsernameEmpty)
  {
    if username == [] then Verdict(false, Some(UsernameEmpty))
    else if !MatchesRepeat(Strip(username), UsernameChar, 3, 50) then Verdict(false, Some(UsernameInvalid))
    else Verdict(true, None)
  }

  predicate HasUpper(s: string) { exists k :: 0 <= k < |s| && IsUpper(s[k]) }
  predicate HasLower(s: string) { exists k :: 0 <= k < |s| && IsLower(s[k]) }
  predicate HasDigit(s: string) { exists k :: 0 <= k < |s| && IsDigit(s[k]) }

  /** `InputSanitizer.validate_password`: the length checks come before the
      complexity check, and the password itself is never altered. */
  function ValidatePassword(password: string): (r: Verdict)
    ensures r.valid <==> r.error.None?
    ensures r.valid <==>
      8 <= |password| <= 128 && HasUpper(password) && HasLower(password) && HasDigit(password)
    ensures 0 < |password| < 8 ==> r.error == Some(PasswordTooShort)
    ensures |password| > 128 ==> r.error == Some(PasswordTooLong)
  {
    if password == [] then Verdict(false, Some(PasswordEmpty))
    else if |password| < 8 then Verdict(false, Some(PasswordTooShort))
    else if |password| > 128 then Verdict(false, Some(PasswordTooLong))
    else if !(HasUpper(password) && HasLower(password) && HasDigit(password)) then
      Verdict(false, Some(PasswordTooWeak))
    else Verdict(true, None)
  }

  /** The values a sanitised field can carry. */
  datatype FieldValue = Text(text: string) | Number(number: int)

  /** The `(is_valid, error_message, value)` triple. */
  datatype Outcome = Outcome(valid: bool, error: Option<string>, value: Option<FieldValue>)

  /** `validate_integer` takes a `str` or an `int`. */
  datatype IntArg = IntText(text: string) | IntValue(number: int)

  /** `int(value)` after stripping a string; `None` stands for `ValueError`. */
  function IntOf(value: IntArg): Option<int> {
    match value
    case IntText(s) => ParseInt(Strip(s))
    case IntValue(n) => Some(n)
  }

  function BelowMinimum(minValue: int): string {
    "La valeur doit être au moins " + IntToString(minValue) + "."
  }

  function AboveMaximum(maxValue: int): string {
    "La valeur ne peut pas dépasser " + IntToString(maxValue) + "."
  }

  /** `InputSanitizer.validate_integer`: the minimum is checked before the maximum. */
  function ValidateInteger(value: IntArg, minValue: int, maxValue: int): (r: Outcome)
    ensures r.valid <==> r.error.None?
    ensures r.valid <==> r.value.Some?
    ensures r.valid ==> r.value.value.Number? && minValue <= r.value.value.number <= maxValue
    ensures r.valid ==> IntOf(value).Some? && r.value == Some(Number(IntOf(value).value))
    ensures r.valid <==> IntOf(value).Some? && minValue <= IntOf(value).value <= maxValue
    ensures IntOf(value).Some? && IntOf(value).value < minValue ==> r.error == Some(BelowMinimum(minValue))
  {
    match IntOf(value)
    case None => Outcome(false, Some(NumberInvalid), None)
    case Some(n) =>
      if n < minValue then Outcome(false, Some(BelowMinimum(minValue)), None)
      else if n > maxValue then Outcome(false, Some(AboveMaximum(maxValue)), None)
      else Outcome(true, None, Some(Number(n)))
  }

  /** The decimal text of an integer in range is accepted with that value. */
  lemma IntegerTextRoundTrip(n: int, minValue: int, maxValue: int)
    requires minValue <= n <= maxValue
    ensures ValidateInteger(IntText(IntToString(n)), minValue, maxValue) == Outcome(true, None, Some(Number(n)))
  {
    IntToStringIsStripped(n);
    ParseIntOfIntToString(n);
  }

  // ---------------------------------------------------------------------------
  // sanitize_input
  // ---------------------------------------------------------------------------

  /** The keyword arguments `sanitize_input` reads; `None` is an absent key. */
  datatype Kwargs = Kwargs(minValue: Option<int>, maxValue: Option<int>,
                           maxLength: Option<int>, allowSpecial: Option<bool>)

  /** The result of a validator, with `value` as the normalised text on success. */
  function WithValue(v: Verdict, normalised: string): Outcome {
    Outcome(v.valid, v.error, if v.valid then Some(Text(normalised)) else None)
  }

  /** `sanitize_input(value, field_type, **kwargs)`. The amount validator works
      on floating-point numbers and is not part of this model: its outcome is
      passed in as `amountOutcome`. */
  function SanitizeInput(value: string, fieldType: string, kwargs: Kwargs, amountOutcome: Outcome): (r: Outcome)
    ensures fieldType == "amount" ==> r == amountOutcome
    ensures fieldType != "amount" ==> (r.valid <==> r.error.None?) && (r.valid <==> r.value.Some?)
    ensures fieldType == "email" ==> r.valid == ValidateEmail(value).valid && r.error == ValidateEmail(value).error
    ensures fieldType == "email" && r.valid ==> r.value == Some(Text(NormalizeEmail(value)))
    ensures fieldType == "phone" ==> r.valid == ValidatePhone(value).valid && r.error == ValidatePhone(value).error
    ensures fieldType == "username" ==>
      r.valid == ValidateUsername(value).valid && r.error == ValidateUsername(value).error
    ensures fieldType in {"phone", "username"} && r.valid ==> r.value == Some(Text(Strip(value)))
    ensures fieldType == "password" ==>
      r.valid == ValidatePassword(value).valid && r.error == ValidatePassword(value).error
    ensures fieldType == "password" && r.valid ==> r.value == Some(Text(value))
    ensures fieldType == "integer" ==>
      r == ValidateInteger(IntText(value), kwargs.minValue.GetOr(0), kwargs.maxValue.GetOr(999999))
    ensures fieldType !in {"email", "phone", "username", "password", "amount", "integer"} ==>
      && r == Outcome(true, None, Some(Text(Sanitized(value, kwargs.maxLength.GetOr(DefaultMaxLength),
                                                      kwargs.allowSpecial.GetOr(false)))))
      && Safe(r.value.value.text)
  {
    if fieldType == "email" then WithValue(ValidateEmail(value), NormalizeEmail(value))
    else if fieldType == "phone" then WithValue(ValidatePhone(value), Strip(value))
    else if fieldType == "username" then WithValue(ValidateUsername(value), Strip(value))
    else if fieldType == "password" then WithValue(ValidatePassword(value), value)
    else if fieldType == "amount" then amountOutcome
    else if fieldType == "integer" then
      ValidateInteger(IntText(value), kwargs.minValue.GetOr(0), kwargs.maxValue.GetOr(999999))
    else
      var text := Sanitized(value, kwargs.maxLength.GetOr(DefaultMaxLength), kwargs.allowSpecial.GetOr(false));
      SanitizedIsSafe(value, kwargs.maxLength.GetOr(DefaultMaxLength), kwargs.allowSpecial.GetOr(false));
      Outcome(true, None, Some(Text(text)))
  }

  /** Normalisation is stable: an accepted email, once normalised, is
      accepted again and normalises to itself. */
  lemma EmailNormalizationStable(value: string)
    requires ValidateEmail(value).valid
    ensures ValidateEmail(NormalizeEmail(value)).valid
    ensures NormalizeEmail(NormalizeEmail(value)) == NormalizeEmail(value)
  {
    var e := NormalizeEmail(value);
    NormalizedEnds(value);
    LowerHasNoUpper(Strip(value));
    EmailOnNormalized(e);
    StripOfStripped(e);
    LowerOfLowerCase(e);
  }

  /** Lower-casing keeps the ends of stripped text free of whitespace. */
  lemma NormalizedEnds(value: string)
    ensures var e := NormalizeEmail(value); e == [] || (!IsSpace(e[0]) && !IsSpace(e[|e| - 1]))
  {
    StripEnds(value);
    LowerKeepsEnds(Strip(value));
  }

  /** The stripped phone number or username that sanitize_input returns is
      accepted again and strips to itself. */
  lemma StrippedFieldStable(value: string)
    requires ValidatePhone(value).valid || ValidateUsername(value).valid
    ensures ValidatePhone(value).valid ==> ValidatePhone(Strip(value)).valid
    ensures ValidateUsername(value).valid ==> ValidateUsername(Strip(value)).valid
    ensures Strip(Strip(value)) == Strip(value)
  {
    StripIdempotent(value);
  }
}
