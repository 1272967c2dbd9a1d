/** The JavaScript string built-ins the handlers rely on: `trim`, `parseInt(s, 10)`, `Number(s)`,
    `split(" ")`, `indexOf`, `replace` with a string pattern, and the lower-casing a
    case-insensitive `contains` filter performs. */
module JsString {
  import opened Wrappers

  // ---------------------------------------------------------------- white space and trim

  /** ECMAScript WhiteSpace and LineTerminator code points: what `trim` removes and what
      `parseInt` and `Number` skip. */
  predicate IsWhite(c: char) {
    || c == '\t' || c == '\n' || c == '\U{000B}' || c == '\U{000C}' || c == '\r' || c == ' '
    || c == '\U{00A0}' || c == '\U{1680}' || ('\U{2000}' <= c <= '\U{200A}')
    || c == '\U{2028}' || c == '\U{2029}' || c == '\U{202F}' || c == '\U{205F}'
    || c == '\U{3000}' || c == '\U{FEFF}'
  }

  /** Every character is white space (the empty string included). */
  predicate Blank(s: string) {
    forall i | 0 <= i < |s| :: IsWhite(s[i])
  }

  /** `s.trimStart()` */
  function TrimStart(s: string): string {
    if |s| > 0 && IsWhite(s[0]) then TrimStart(s[1..]) else s
  }

  /** `s.trimEnd()` */
  function TrimEnd(s: string): string {
    if |s| > 0 && IsWhite(s[|s| - 1]) then TrimEnd(s[..|s| - 1]) else s
  }

  /** `s.trim()` */
  function Trim(s: string): string {
    TrimEnd(TrimStart(s))
  }

  /** `trimStart` removes a blank prefix and stops at the first character that is not white. */
  lemma {:induction false} TrimStartShape(s: string) returns (w: string)
    ensures s == w + TrimStart(s) && Blank(w)
    ensures TrimStart(s) == "" || !IsWhite(TrimStart(s)[0])
  {
    if |s| > 0 && IsWhite(s[0]) {
      var w' := TrimStartShape(s[1..]);
      w := [s[0]] + w';
      assert s == [s[0]] + s[1..];
    } else {
      w := "";
    }
  }

  /** `trimEnd` removes a blank suffix and stops at the last character that is not white. */
  lemma {:induction false} TrimEndShape(s: string) returns (w: string)
    ensures s == TrimEnd(s) + w && Blank(w)
    ensures TrimEnd(s) == "" || !IsWhite(TrimEnd(s)[|TrimEnd(s)| - 1])
  {
    if |s| > 0 && IsWhite(s[|s| - 1]) {
      var w' := TrimEndShape(s[..|s| - 1]);
      w := w' + [s[|s| - 1]];
      assert s == s[..|s| - 1] + [s[|s| - 1]];
    } else {
      w := "";
    }
  }

  /** `s.trim()` is empty exactly when `s` is white space only (why "   " is a missing name). */
  lemma TrimEmptyIffBlank(s: string)
    ensures Trim(s) == "" <==> Blank(s)
  {
    var w1 := TrimStartShape(s);
    var t := TrimStart(s);
    var w2 := TrimEndShape(t);
    if Trim(s) == "" {
      assert t == w2;
      assert t == "";
      assert s == w1;
    }
    if Blank(s) {
      BlankSuffix(w1, t);
      assert t == "";
    }
  }

  lemma BlankSuffix(w: string, t: string)
    requires Blank(w + t)
    ensures Blank(t)
  {
    forall i | 0 <= i < |t| ensures IsWhite(t[i]) {
      assert t[i] == (w + t)[|w| + i];
    }
  }

  /** Trimming leaves the text between the white space alone. */
  lemma TrimSurrounded(w1: string, u: string, w2: string)
    requires Blank(w1) && Blank(w2)
    requires u != "" && !IsWhite(u[0]) && !IsWhite(u[|u| - 1])
    ensures TrimStart(w1 + u + w2) == u + w2
    ensures Trim(w1 + u + w2) == u
  {
    assert w1 + u + w2 == w1 + (u + w2);
    TrimStartBlankPrefix(w1, u + w2);
    TrimEndBlankSuffix(u, w2);
  }

  lemma {:induction false} TrimStartBlankPrefix(w: string, t: string)
    requires Blank(w) && (t == "" || !IsWhite(t[0]))
    ensures TrimStart(w + t) == t
  {
    if w != "" {
      assert (w + t)[1..] == w[1..] + t;
      TrimStartBlankPrefix(w[1..], t);
    } else {
      assert w + t == t;
    }
  }

  lemma {:induction false} TrimEndBlankSuffix(u: string, w: string)
    requires Blank(w) && u != "" && !IsWhite(u[|u| - 1])
    ensures TrimEnd(u + w) == u
  {
    if w != "" {
      assert (u + w)[..|u + w| - 1] == u + w[..|w| - 1];
      TrimEndBlankSuffix(u, w[..|w| - 1]);
    } else {
      assert u + w == u;
    }
  }

  // ---------------------------------------------------------------- decimal digits

  predicate IsDigit(c: char) {
    '0' <= c <= '9'
  }

  /** A non-empty run of decimal digits. */
  predicate Digits(d: string) {
    |d| > 0 && forall i | 0 <= i < |d| :: IsDigit(d[i])
  }

  /** The value of a string of decimal digits, most significant first. */
  function Decimal(d: string): nat
    requires forall i | 0 <= i < |d| :: IsDigit(d[i])
  {
    if d == "" then 0
    else
      var c := d[|d| - 1];
      assert IsDigit(c);
      10 * Decimal(d[..|d| - 1]) + (c as int - '0' as int)
  }

  /** The longest prefix of `s` made of decimal digits. */
  function DigitPrefix(s: string): (d: string)
    ensures |d| <= |s| && d == s[..|d|]
    ensures forall i | 0 <= i < |d| :: IsDigit(d[i])
    ensures |d| == |s| || !IsDigit(s[|d|])
  {
    if |s| > 0 && IsDigit(s[0]) then [s[0]] + DigitPrefix(s[1..]) else ""
  }

  lemma {:induction false} DigitPrefixOf(d: string, rest: string)
    requires forall i | 0 <= i < |d| :: IsDigit(d[i])
    requires rest == "" || !IsDigit(rest[0])
    ensures DigitPrefix(d + rest) == d
  {
    if d != "" {
      assert (d + rest)[1..] == d[1..] + rest;
      DigitPrefixOf(d[1..], rest);
    } else {
      assert d + rest == rest;
    }
  }

  // ---------------------------------------------------------------- parseInt and Number

  predicate IsSign(c: char) {
    c == '+' || c == '-'
  }

  function Signed(negative: bool, n: nat): int {
    if negative then -(n as int) else n
  }

  /** `parseInt(s, 10)`: `None` is NaN. Leading white space is skipped, one sign is allowed,
      and then the longest run of digits is read; whatever follows is ignored. */
  function ParseInt(s: string): Option<int> {
    var t := TrimStart(s);
    if |t| > 0 && IsSign(t[0]) then LeadingDigits(t[1..], t[0] == '-') else LeadingDigits(t, false)
  }

  /** The number the leading digits of `t` spell, NaN when there are none. */
  function LeadingDigits(t: string, negative: bool): Option<int> {
    var d := DigitPrefix(t);
    if d == "" then None else Some(Signed(negative, Decimal(d)))
  }

  /** `parseInt` reads white space, an optional sign and a run of digits, and stops at the first
      character that is not a digit. */
  lemma ParseIntReads(w: string, sign: string, d: string, rest: string)
    requires Blank(w) && (sign == "" || sign == "+" || sign == "-")
    requires Digits(d) && (rest == "" || !IsDigit(rest[0]))
    ensures ParseInt(w + sign + d + rest) == Some(Signed(sign == "-", Decimal(d)))
  {
    var t := sign + d + rest;
    assert w + sign + d + rest == w + t;
    if sign == "" {
      assert t == d + rest;
      UnsignedDigits(w, t, d, rest);
    } else {
      assert t == [sign[0]] + d + rest;
      SignedDigits(w, t, sign[0], d, rest);
    }
  }

  lemma UnsignedDigits(w: string, t: string, d: string, rest: string)
    requires Blank(w) && t == d + rest
    requires Digits(d) && (rest == "" || !IsDigit(rest[0]))
    ensures ParseInt(w + t) == Some(Decimal(d))
  {
    LeadingDigitsOf(d, rest, false);
    assert t[0] == d[0];
    ParseIntAfterBlank(w, t);
  }

  lemma SignedDigits(w: string, t: string, c: char, d: string, rest: string)
    requires Blank(w) && IsSign(c) && t == [c] + d + rest
    requires Digits(d) && (rest == "" || !IsDigit(rest[0]))
    ensures ParseInt(w + t) == Some(Signed(c == '-', Decimal(d)))
  {
    assert t[0] == c && t[1..] == d + rest;
    ParseIntAfterBlank(w, t);
    LeadingDigitsOf(d, rest, c == '-');
  }

  lemma LeadingDigitsOf(d: string, rest: string, negative: bool)
    requires Digits(d) && (rest == "" || !IsDigit(rest[0]))
    ensures LeadingDigits(d + rest, negative) == Some(Signed(negative, Decimal(d)))
  {
    DigitPrefixOf(d, rest);
  }

  lemma ParseIntAfterBlank(w: string, t: string)
    requires Blank(w) && t != "" && !IsWhite(t[0])
    ensures ParseInt(w + t) == if IsSign(t[0]) then LeadingDigits(t[1..], t[0] == '-') else LeadingDigits(t, false)
  {
    TrimStartBlankPrefix(w, t);
  }

  /** `parseInt` is NaN when the first character after the white space is neither a digit nor a
      sign followed by a digit. */
  lemma ParseIntNaN(w: string, rest: string)
    requires Blank(w)
    requires rest == "" || (!IsWhite(rest[0]) && !IsDigit(rest[0]))
    requires |rest| > 1 && IsSign(rest[0]) ==> !IsDigit(rest[1])
    ensures ParseInt(w + rest) == None
  {
    TrimStartBlankPrefix(w, rest);
  }

  /** `Number(s)` restricted to the forms an id can take: white space around an optional sign and
      decimal digits; the blank string is 0. `None` stands for NaN and for every other form. */
  function ToNumber(s: string): Option<int> {
    var t := Trim(s);
    if t == "" then Some(0)
    else if IsSign(t[0]) then
      (if Digits(t[1..]) then Some(Signed(t[0] == '-', Decimal(t[1..]))) else None)
    else if Digits(t) then Some(Decimal(t))
    else None
  }

  /** Wherever `Number` gives an integer on a non-blank string, `parseInt` gives the same one. */
  lemma ToNumberAgreesWithParseInt(s: string)
    requires !Blank(s) && ToNumber(s).Some?
    ensures ParseInt(s) == ToNumber(s)
  {
    var w1, u, w2 := TrimParts(s);
    assert w2 == "" || IsWhite(w2[0]);
    if IsSign(u[0]) {
      var d := u[1..];
      assert ToNumber(s) == Some(Signed(u[0] == '-', Decimal(d)));
      assert s == w1 + ([u[0]] + d + w2);
      SignedDigits(w1, [u[0]] + d + w2, u[0], d, w2);
    } else {
      assert ToNumber(s) == Some(Decimal(u));
      assert s == w1 + (u + w2);
      UnsignedDigits(w1, u + w2, u, w2);
    }
  }

  /** A string that is not blank is its trimmed text with white space on either side. */
  lemma TrimParts(s: string) returns (w1: string, u: string, w2: string)
    requires !Blank(s)
    ensures s == w1 + u + w2 && u == Trim(s)
    ensures Blank(w1) && Blank(w2)
    ensures u != "" && !IsWhite(u[0]) && !IsWhite(u[|u| - 1])
  {
    TrimEmptyIffBlank(s);
    var t := TrimStart(s);
    w1 := TrimStartShape(s);
    w2 := TrimEndShape(t);
    u := Trim(s);
    assert t == u + w2;
    assert u[0] == t[0];
  }

  /** The two conversions part ways on trailing junk: `parseInt` accepts "12abc" as 12, and
      `Number` gives NaN. */
  lemma TrailingJunkSplitsTheConversions()
    ensures ParseInt("12abc") == Some(12)
    ensures ToNumber("12abc") == None
  {
    ParseIntReads("", "", "12", "abc");
    assert "" + "" + "12" + "abc" == "12abc";
    TrimSurrounded("", "12abc", "");
    assert "" + "12abc" + "" == "12abc";
    assert !IsDigit("12abc"[2]);
  }

  // ---------------------------------------------------------------- split

  /** `s.split(sep)` for a one-character separator. */
  function Split(s: string, sep: char): (parts: seq<string>)
    ensures |parts| >= 1
    ensures forall i | 0 <= i < |parts| :: sep !in parts[i]
  {
    if |s| == 0 then [""]
    else
      var rest := Split(s[1..], sep);
      if s[0] == sep then [""] + rest else [[s[0]] + rest[0]] + rest[1..]
  }

  /** `parts.join(sep)` */
  function Join(parts: seq<string>, sep: char): string
    requires |parts| >= 1
  {
    if |parts| == 1 then parts[0] else parts[0] + [sep] + Join(parts[1..], sep)
  }

  /** Joining the pieces gives back the string. */
  lemma {:induction false} JoinSplit(s: string, sep: char)
    ensures Join(Split(s, sep), sep) == s
  {
    if |s| > 0 {
      var rest := Split(s[1..], sep);
      JoinSplit(s[1..], sep);
      if s[0] == sep {
        assert Split(s, sep)[1..] == rest;
        assert s == [s[0]] + s[1..];
      } else {
        var parts := Split(s, sep);
        if |rest| == 1 {
          assert s == [s[0]] + s[1..];
        } else {
          assert parts[1..] == rest[1..];
          assert Join(rest, sep) == rest[0] + [sep] + Join(rest[1..], sep);
          assert s == [s[0]] + s[1..];
        }
      }
    }
  }

  /** Splitting a join of separator-free pieces gives back the pieces. */
  lemma {:induction false} SplitJoin(parts: seq<string>, sep: char)
    requires |parts| >= 1
    requires forall i | 0 <= i < |parts| :: sep !in parts[i]
    ensures Split(Join(parts, sep), sep) == parts
  {
    if |parts| == 1 {
      SplitFree(parts[0], sep);
    } else {
      SplitJoin(parts[1..], sep);
      SplitPrefixed(parts[0], Join(parts[1..], sep), sep);
      assert [parts[0]] + parts[1..] == parts;
    }
  }

  lemma {:induction false} SplitFree(p: string, sep: char)
    requires sep !in p
    ensures Split(p, sep) == [p]
  {
    if |p| > 0 {
      assert sep !in p[1..] by { assert forall x | x in p[1..] :: x in p; }
      SplitFree(p[1..], sep);
      assert p == [p[0]] + p[1..];
    }
  }

  lemma {:induction false} SplitPrefixed(p: string, t: string, sep: char)
    requires sep !in p
    ensures Split(p + [sep] + t, sep) == [p] + Split(t, sep)
  {
    if |p| == 0 {
      assert p + [sep] + t == [sep] + t;
      assert ([sep] + t)[1..] == t;
    } else {
      assert (p + [sep] + t)[1..] == p[1..] + [sep] + t;
      assert sep !in p[1..] by { assert forall x | x in p[1..] :: x in p; }
      SplitPrefixed(p[1..], t, sep);
      assert p == [p[0]] + p[1..];
    }
  }

  // ---------------------------------------------------------------- indexOf and replace

  /** `pat` occurs in `s` at position `j`. */
  predicate OccursAt(s: string, pat: string, j: int) {
    0 <= j && j + |pat| <= |s| && s[j..j + |pat|] == pat
  }

  /** `s` contains `t` (`s.includes(t)`). */
  predicate Includes(s: string, t: string) {
    exists j | 0 <= j <= |s| :: OccursAt(s, t, j)
  }

  /** `s.indexOf(pat, from)`, `None` for -1. */
  function IndexFrom(s: string, pat: string, from: nat): (r: Option<nat>)
    decreases |s| - from
    ensures r.Some? ==> from <= r.value && OccursAt(s, pat, r.value)
    ensures forall j | from <= j && (r.None? || j < r.value) :: !OccursAt(s, pat, j)
  {
    if from + |pat| > |s| then None
    else if s[from..from + |pat|] == pat then Some(from)
    else IndexFrom(s, pat, from + 1)
  }

  /** `s.indexOf(pat)` */
  function IndexOf(s: string, pat: string): Option<nat> {
    IndexFrom(s, pat, 0)
  }

  /** The first occurrence of `pat` in `p + pat + q` is right after `p` when `pat` cannot start
      inside `p` (its first character never occurs there). */
  lemma IndexOfAfterPrefix(p: string, pat: string, q: string)
    requires |pat| > 0 && pat[0] !in p
    ensures IndexOf(p + pat + q, pat) == Some(|p|)
  {
    var s := p + pat + q;
    assert OccursAt(s, pat, |p|) by { assert s[|p|..|p| + |pat|] == pat; }
    forall j | 0 <= j < |p| ensures !OccursAt(s, pat, j) {
      assert s[j] == p[j];
    }
  }

  /** The replacement text `String.prototype.replace` inserts for a string pattern: `$$` is "$",
      `$&` the match, `` $` `` the text before it and `$'` the text after it; every other character
      stands for itself (a string pattern has no capture groups). */
  function Substitution(matched: string, str: string, position: nat, rep: string): string
    requires position + |matched| <= |str|
  {
    if |rep| >= 2 && rep[0] == '$' && rep[1] == '$' then "$" + Substitution(matched, str, position, rep[2..])
    else if |rep| >= 2 && rep[0] == '$' && rep[1] == '&' then matched + Substitution(matched, str, position, rep[2..])
    else if |rep| >= 2 && rep[0] == '$' && rep[1] == '`' then str[..position] + Substitution(matched, str, position, rep[2..])
    else if |rep| >= 2 && rep[0] == '$' && rep[1] == '\'' then str[position + |matched|..] + Substitution(matched, str, position, rep[2..])
    else if rep == "" then ""
    else [rep[0]] + Substitution(matched, str, position, rep[1..])
  }

  /** A replacement without `$` is inserted as it is. */
  lemma {:induction false} SubstitutionPlain(matched: string, str: string, position: nat, rep: string)
    requires position + |matched| <= |str|
    requires '$' !in rep
    ensures Substitution(matched, str, position, rep) == rep
  {
    if rep != "" {
      assert '$' !in rep[1..] by { assert forall x | x in rep[1..] :: x in rep; }
      SubstitutionPlain(matched, str, position, rep[1..]);
      assert rep == [rep[0]] + rep[1..];
    }
  }

  /** `$&` expands to the matched text. */
  lemma {:induction false} SubstitutionMatch(matched: string, str: string, position: nat, rest: string)
    requires position + |matched| <= |str|
    ensures Substitution(matched, str, position, "$&" + rest) == matched + Substitution(matched, str, position, rest)
  {
    assert ("$&" + rest)[2..] == rest;
  }

  /** A character other than `$` stands for itself. */
  lemma {:induction false} SubstitutionChar(matched: string, str: string, position: nat, c: char, rest: string)
    requires position + |matched| <= |str| && c != '$'
    ensures Substitution(matched, str, position, [c] + rest) == [c] + Substitution(matched, str, position, rest)
  {
    assert ([c] + rest)[1..] == rest;
  }

  /** A string cannot contain a text holding a character it lacks. */
  lemma {:induction false} MissingCharExcludes(s: string, t: string, c: char)
    requires c in t && c !in s
    ensures !Includes(s, t)
  {
    var i :| 0 <= i < |t| && t[i] == c;
    forall j | 0 <= j <= |s|
      ensures !OccursAt(s, t, j)
    {
      if j + |t| <= |s| {
        assert s[j..j + |t|][i] != t[i];
      }
    }
  }

  /** `s.replace(pat, rep)` with a string pattern and a string replacement: only the first
      occurrence is replaced, and `rep` is expanded by `Substitution`. */
  function Replace(s: string, pat: string, rep: string): string {
    match IndexOf(s, pat)
    case None => s
    case Some(p) => s[..p] + Substitution(pat, s, p, rep) + s[p + |pat|..]
  }

  /** `s.replace(pat, () => rep)`: the first occurrence is replaced by `rep` verbatim. */
  function ReplaceVerbatim(s: string, pat: string, rep: string): string {
    match IndexOf(s, pat)
    case None => s
    case Some(p) => s[..p] + rep + s[p + |pat|..]
  }

  // ---------------------------------------------------------------- case-insensitive contains

  /** Lower-casing of the ASCII letters. */
  function LowerChar(c: char): char {
    if 'A' <= c <= 'Z' then (c as int - 'A' as int + 'a' as int) as char else c
  }

  function Lower(s: string): (r: string)
    ensures |r| == |s| && forall i | 0 <= i < |s| :: r[i] == LowerChar(s[i])
  {
    seq(|s|, i requires 0 <= i < |s| => LowerChar(s[i]))
  }

  /** A `{ contains: t, mode: "insensitive" }` filter accepts `s`. */
  predicate ContainsInsensitive(s: string, t: string) {
    Includes(Lower(s), Lower(t))
  }
}
