/**
 * The Python built-in string operations the backend relies on, with Python's
 * own edge cases: `str.strip`, `str.split` (with a separator and on runs of
 * whitespace), `str.join`, `str.replace`, `str.lower`/`str.upper`, `in`,
 * `str.endswith`, slicing, `str(n)`, and `int(s)` / `int(s, 16)`, whose
 * `ValueError` is `None` here.
 */
module PyBuiltins {
  import opened Wrappers

  // ---------------------------------------------------------------- whitespace

  /** `str.isspace` for one character: the 29 code points Python's Unicode database classes as whitespace. */
  predicate IsSpace(c: char) {
    c == ' ' || '\t' <= c <= '\r' || '\U{1c}' <= c <= '\U{1f}' || c == '\U{85}' || c == '\U{a0}'
    || c == '\U{1680}' || '\U{2000}' <= c <= '\U{200a}' || c == '\U{2028}' || c == '\U{2029}'
    || c == '\U{202f}' || c == '\U{205f}' || c == '\U{3000}'
  }

  predicate NoSpace(s: string) {
    forall i :: 0 <= i < |s| ==> !IsSpace(s[i])
  }

  predicate AllSpace(s: string) {
    forall i :: 0 <= i < |s| ==> IsSpace(s[i])
  }

  /** `str.lstrip()`: the longest suffix that does not start with whitespace. */
  function LStrip(s: string): (r: string)
    ensures |r| <= |s|
  {
    if s != [] && IsSpace(s[0]) then LStrip(s[1..]) else s
  }

  /** What `lstrip` removes is whitespace, and what it keeps is a suffix not starting with whitespace. */
  lemma {:induction false} LStripShape(s: string)
    ensures LStrip(s) == s[|s| - |LStrip(s)|..]
    ensures LStrip(s) == [] || !IsSpace(LStrip(s)[0])
    ensures AllSpace(s[..|s| - |LStrip(s)|])
  {
    if s != [] && IsSpace(s[0]) {
      LStripShape(s[1..]);
      var n := |s| - |LStrip(s)|;
      assert s[1..][..n - 1] == s[1..n];
    }
  }

  /** `str.rstrip()`: the longest prefix that does not end with whitespace. */
  function RStrip(s: string): (r: string)
    ensures |r| <= |s|
  {
    if s != [] && IsSpace(s[|s| - 1]) then RStrip(s[..|s| - 1]) else s
  }

  /** What `rstrip` removes is whitespace, and what it keeps is a prefix not ending with whitespace. */
  lemma {:induction false} RStripShape(s: string)
    ensures RStrip(s) == s[..|RStrip(s)|]
    ensures RStrip(s) == [] || !IsSpace(RStrip(s)[|RStrip(s)| - 1])
    ensures AllSpace(s[|RStrip(s)|..])
  {
    if s != [] && IsSpace(s[|s| - 1]) {
      var init := s[..|s| - 1];
      RStripShape(init);
      var r := RStrip(init);
      assert RStrip(s) == r;
      var n := |r|;
      assert init[..n] == s[..n];
      assert s[n..] == init[n..] + [s[|s| - 1]];
      assert AllSpace(init[n..]);
      forall i | 0 <= i < |s[n..]|
        ensures IsSpace(s[n..][i])
      {
        if i < |init[n..]| {
          assert s[n..][i] == init[n..][i];
        }
      }
    }
  }

  /** `str.strip()`. */
  function Strip(s: string): string {
    RStrip(LStrip(s))
  }

  /** The text is blank (`not s.strip()`) exactly when every character is whitespace. */
  lemma StripEmptyIffAllSpace(s: string)
    ensures Strip(s) == [] <==> AllSpace(s)
  {
    var l := LStrip(s);
    LStripShape(s);
    RStripShape(l);
    if Strip(s) == [] {
      assert l[0..] == l;
      assert l == [];
      assert s[..|s| - |l|] == s;
    }
  }

  /** A string that neither starts nor ends with whitespace is its own strip. */
  lemma StripUnchanged(s: string)
    requires s == [] || (!IsSpace(s[0]) && !IsSpace(s[|s| - 1]))
    ensures Strip(s) == s
  {
  }

  /** A stripped text neither starts nor ends with whitespace, so stripping it again changes nothing. */
  lemma StripIdempotent(s: string)
    ensures Strip(s) == [] || (!IsSpace(Strip(s)[0]) && !IsSpace(Strip(s)[|Strip(s)| - 1]))
    ensures Strip(Strip(s)) == Strip(s)
  {
    var l := LStrip(s);
    LStripShape(s);
    RStripShape(l);
    var t := Strip(s);
    if t != [] {
      assert t[0] == l[0];
    }
    StripUnchanged(t);
  }

  // ---------------------------------------------------------------- case

  function LowerChar(c: char): char {
    if 'A' <= c <= 'Z' then (c as int + 32) as char else c
  }

  function UpperChar(c: char): char {
    if 'a' <= c <= 'z' then (c as int - 32) as char else c
  }

  /** `str.lower()` on ASCII letters. */
  function Lower(s: string): string {
    seq(|s|, i requires 0 <= i < |s| => LowerChar(s[i]))
  }

  /** `str.upper()` on ASCII letters. */
  function Upper(s: string): string {
    seq(|s|, i requires 0 <= i < |s| => UpperChar(s[i]))
  }

  lemma LowerIdempotent(s: string)
    ensures Lower(Lower(s)) == Lower(s)
  {
  }

  predicate HasNoUpper(s: string) {
    forall i :: 0 <= i < |s| ==> !('A' <= s[i] <= 'Z')
  }

  lemma LowerOfLowercase(s: string)
    requires HasNoUpper(s)
    ensures Lower(s) == s
  {
  }

  lemma LowerAppend(a: string, b: string)
    ensures Lower(a + b) == Lower(a) + Lower(b)
  {
  }

  // ---------------------------------------------------------------- substrings

  /** `sub` occurs in `s` at index `j`. */
  predicate IsAt(s: string, sub: string, j: int) {
    0 <= j && j + |sub| <= |s| && s[j..j + |sub|] == sub
  }

  /** `s.find(sub, start)`, with `None` for Python's `-1`. */
  function FindFrom(s: string, sub: string, start: nat): (r: Option<nat>)
    requires start <= |s|
    ensures r.Some? ==> start <= r.value && IsAt(s, sub, r.value)
    ensures r.Some? ==> forall j :: start <= j < r.value ==> !IsAt(s, sub, j)
    ensures r.None? ==> forall j :: start <= j <= |s| ==> !IsAt(s, sub, j)
    decreases |s| - start
  {
    if start + |sub| > |s| then None
    else if s[start..start + |sub|] == sub then Some(start)
    else FindFrom(s, sub, start + 1)
  }

  function Find(s: string, sub: string): Option<nat> {
    FindFrom(s, sub, 0)
  }

  /** `sub in s`. */
  predicate Contains(s: string, sub: string) {
    Find(s, sub).Some?
  }

  lemma ContainsIff(s: string, sub: string)
    ensures Contains(s, sub) <==> exists j :: IsAt(s, sub, j)
  {
  }

  /** A string without the first character of `sub` cannot contain `sub`. */
  lemma NotContainsWithoutFirstChar(s: string, sub: string)
    requires sub != [] && sub[0] !in s
    ensures !Contains(s, sub)
  {

  }

  /** `s.endswith(suffix)`. */
  predicate EndsWith(s: string, suffix: string) {
    |suffix| <= |s| && s[|s| - |suffix|..] == suffix
  }

  // ---------------------------------------------------------------- split / join

  /** `sep.join(parts)`. */
  function JoinStr(parts: seq<string>, sep: string): string {
    if |parts| == 0 then []
    else if |parts| == 1 then parts[0]
    else parts[0] + sep + JoinStr(parts[1..], sep)
  }

  lemma JoinStrTwo(a: string, b: string, sep: string)
    ensures JoinStr([a, b], sep) == a + sep + b
  {
    assert [a, b][1..] == [b];
  }

  /**
   * `s.split(sep)` for a non-empty separator: the pieces between the
   * occurrences of `sep` found from left to right without overlapping.
   * Joining the pieces with `sep` gives back `s`.
   */
  function SplitStr(s: string, sep: string): (parts: seq<string>)
    requires sep != []
    ensures |parts| >= 1
    ensures JoinStr(parts, sep) == s
    ensures forall k :: 0 <= k < |parts| ==> !Contains(parts[k], sep)
    decreases |s|
  {
    match Find(s, sep)
    case None => [s]
    case Some(i) =>
      var head, rest := s[..i], SplitStr(s[i + |sep|..], sep);
      FirstOccurrence(s, sep, i);
      [head] + rest
  }

  /** The text before the first occurrence of `sep` does not contain it, and `sep` follows it. */
  lemma FirstOccurrence(s: string, sep: string, i: nat)
    requires sep != [] && Find(s, sep) == Some(i)
    ensures i + |sep| <= |s| && s == s[..i] + sep + s[i + |sep|..]
    ensures !Contains(s[..i], sep)
  {
    assert IsAt(s, sep, i);
    assert s[i..i + |sep|] == sep;
    assert s == s[..i] + s[i..i + |sep|] + s[i + |sep|..];
    NothingBefore(s, sep, i);
  }

  lemma NothingBefore(s: string, sep: string, i: nat)
    requires sep != [] && i <= |s| && forall j :: 0 <= j < i ==> !IsAt(s, sep, j)
    ensures !Contains(s[..i], sep)
  {
    var head := s[..i];
    if Contains(head, sep) {
      var j := Find(head, sep).value;
      assert head[j..j + |sep|] == s[j..j + |sep|];
      assert IsAt(s, sep, j);
      assert false;
    }
  }

  /** `str.replace(target, replacement)` for a non-empty `target`: Python's own identity `replacement.join(s.split(target))`. */
  function Replace(s: string, target: string, replacement: string): string
    requires target != []
  {
    JoinStr(SplitStr(s, target), replacement)
  }

  lemma ReplaceAbsent(s: string, target: string, replacement: string)
    requires target != [] && !Contains(s, target)
    ensures Replace(s, target, replacement) == s
  {
  }

  /**
   * One occurrence of `sep`, preceded by text without `sep`'s first
   * character and followed by text without `sep`, splits into exactly the
   * two surrounding pieces.
   */
  lemma {:induction false} SplitAroundOne(a: string, sep: string, b: string)
    requires sep != [] && sep[0] !in a && !Contains(b, sep)
    ensures SplitStr(a + sep + b, sep) == [a, b]
  {
    var s := a + sep + b;
    assert IsAt(s, sep, |a|) by {
      assert s[|a|..|a| + |sep|] == sep;
    }
    forall j | 0 <= j < |a| ensures !IsAt(s, sep, j) {
      assert s[j] == a[j] != sep[0];
      assert j + |sep| <= |s| ==> s[j..j + |sep|][0] == s[j];
    }
    var f := Find(s, sep);
    assert f == Some(|a|);
    assert s[..|a|] == a;
    assert s[|a| + |sep|..] == b;
  }

  /** Replacing the single occurrence of `target` described by SplitAroundOne. */
  lemma ReplaceOne(a: string, target: string, b: string, replacement: string)
    requires target != [] && target[0] !in a && !Contains(b, target)
    ensures Replace(a + target + b, target, replacement) == a + replacement + b
  {
    SplitAroundOne(a, target, b);
    JoinStrTwo(a, b, replacement);
  }

  /** The longest prefix of `s` without whitespace. */
  function WordPrefix(s: string): (w: string)
    ensures |w| <= |s| && w == s[..|w|] && NoSpace(w)
    ensures |w| == |s| || IsSpace(s[|w|])
  {
    if s == [] || IsSpace(s[0]) then []
    else [s[0]] + WordPrefix(s[1..])
  }

  /** `s.split()`: the maximal runs of non-whitespace characters, in order. */
  function Words(s: string): (ws: seq<string>)
    ensures forall k :: 0 <= k < |ws| ==> ws[k] != [] && NoSpace(ws[k])
    decreases |s|
  {
    LStripShape(s);
    var t := LStrip(s);
    if t == [] then []
    else
      var w := WordPrefix(t);
      [w] + Words(t[|w|..])
  }

  predicate IsWord(w: string) {
    w != [] && NoSpace(w)
  }

  /** Splitting a space-joined line of words gives back the words. */
  lemma {:induction false} WordsOfJoin(ws: seq<string>)
    requires forall k :: 0 <= k < |ws| ==> IsWord(ws[k])
    ensures Words(JoinStr(ws, " ")) == ws
    decreases |ws|
  {
    if |ws| == 1 {
      WordsOfSingle(ws);
    } else if |ws| > 1 {
      WordsOfJoin(ws[1..]);
      JoinStartsWithWord(ws[1..]);
      JoinStrCons(ws, " ");
      var j, rest := JoinStr(ws, " "), JoinStr(ws[1..], " ");
      WordsAfterWord(ws[0], rest, ws[1..]);
      HeadTail(ws);
    }
  }

  lemma HeadTail<T>(s: seq<T>)
    requires |s| > 0
    ensures [s[0]] + s[1..] == s
  {
  }

  lemma JoinStrCons(parts: seq<string>, sep: string)
    requires |parts| > 1
    ensures JoinStr(parts, sep) == parts[0] + (sep + JoinStr(parts[1..], sep))
  {
  }

  lemma WordsAfterWord(w: string, rest: string, tail: seq<string>)
    requires IsWord(w) && rest != [] && !IsSpace(rest[0]) && Words(rest) == tail
    ensures Words(w + (" " + rest)) == [w] + tail
  {
    WordsCons(w, " " + rest);
    WordsAfterSpace(rest);
  }

  lemma WordsOfSingle(ws: seq<string>)
    requires |ws| == 1 && IsWord(ws[0])
    ensures Words(JoinStr(ws, " ")) == ws
  {
    var w := ws[0];
    WordsCons(w, []);
    assert w + [] == w;
    assert Words([]) == [];
    assert ws == [w];
  }

  /** A word followed by whitespace (or by nothing) is the first word. */
  lemma WordsCons(w: string, tail: string)
    requires IsWord(w) && (tail == [] || IsSpace(tail[0]))
    ensures Words(w + tail) == [w] + Words(tail)
  {
    var s := w + tail;
    assert LStrip(s) == s;
    WordPrefixOf(w, tail);
    assert s[|w|..] == tail;
  }

  lemma WordsAfterSpace(t: string)
    ensures Words(" " + t) == Words(t)
  {
    assert (" " + t)[1..] == t;
    assert LStrip(" " + t) == LStrip(t);
  }

  lemma WordPrefixOf(w: string, tail: string)
    requires NoSpace(w) && (tail == [] || IsSpace(tail[0]))
    ensures WordPrefix(w + tail) == w
    decreases |w|
  {
    if w != [] {
      assert (w + tail)[1..] == w[1..] + tail;
      WordPrefixOf(w[1..], tail);
    }
  }

  lemma JoinStartsWithWord(ws: seq<string>)
    requires |ws| > 0 && forall k :: 0 <= k < |ws| ==> IsWord(ws[k])
    ensures JoinStr(ws, " ") != [] && !IsSpace(JoinStr(ws, " ")[0])
  {
  }

  // ---------------------------------------------------------------- integers

  function DigitChar(d: nat): char
    requires d < 10
  {
    ('0' as int + d) as char
  }

  /** The decimal digits of a natural number, without leading zeros. */
  function NatToStr(n: nat): (s: string)
    ensures s != [] && forall i :: 0 <= i < |s| ==> '0' <= s[i] <= '9'
  {
    if n < 10 then [DigitChar(n)] else NatToStr(n / 10) + [DigitChar(n % 10)]
  }

  /** `str(n)` for an integer. */
  function IntToStr(n: int): (s: string)
    ensures s != []
    ensures forall i :: 0 <= i < |s| ==> s[i] == '-' || '0' <= s[i] <= '9'
  {
    if n < 0 then "-" + NatToStr(-n) else NatToStr(n)
  }

  /** The value of one digit character (0 for a character that is none). */
  function DigitVal(c: char): nat {
    if '0' <= c <= '9' then c as nat - '0' as nat
    else if 'a' <= c <= 'f' then c as nat - 'a' as nat + 10
    else if 'A' <= c <= 'F' then c as nat - 'A' as nat + 10
    else 0
  }

  predicate IsDigitIn(c: char, base: nat) {
    ('0' <= c <= '9' || 'a' <= c <= 'f' || 'A' <= c <= 'F') && DigitVal(c) < base
  }

  /**
   * The digit part of a Python integer literal: digits of `base`, with a
   * single `_` allowed between two digits.
   */
  predicate ValidDigits(d: string, base: nat) {
    |d| > 0 && IsDigitIn(d[0], base) && IsDigitIn(d[|d| - 1], base) &&
    forall i :: 0 <= i < |d| ==> IsDigitIn(d[i], base) || (d[i] == '_' && 0 < i < |d| - 1 && d[i + 1] != '_')
  }

  /** The value of a digit string, underscores skipped. */
  function DigitsValue(d: string, base: nat): nat {
    if d == [] then 0
    else if d[|d| - 1] == '_' then DigitsValue(d[..|d| - 1], base)
    else DigitsValue(d[..|d| - 1], base) * base + DigitVal(d[|d| - 1])
  }

  /** The magnitude after the sign; `0x`/`0X` (and one `_` after it) is allowed when `hexPrefix`. */
  function ParseMagnitude(b: string, base: nat, hexPrefix: bool): Option<nat> {
    if hexPrefix && |b| >= 2 && b[0] == '0' && (b[1] == 'x' || b[1] == 'X') then
      var rest := if |b| > 2 && b[2] == '_' then b[3..] else b[2..];
      if ValidDigits(rest, base) then Some(DigitsValue(rest, base)) else None
    else if ValidDigits(b, base) then Some(DigitsValue(b, base))
    else None
  }

  function ParseSigned(t: string, base: nat, hexPrefix: bool): Option<int> {
    var signed := |t| > 0 && (t[0] == '-' || t[0] == '+');
    var body := if signed then t[1..] else t;
    match ParseMagnitude(body, base, hexPrefix)
    case None => None
    case Some(m) =>
      var v: int := if signed && t[0] == '-' then -(m as int) else m;
      Some(v)
  }

  /** `int(s)`: surrounding whitespace, an optional sign, decimal digits; `None` for `ValueError`. */
  function ParseInt(s: string): Option<int> {
    ParseSigned(Strip(s), 10, false)
  }

  /** `int(s, 16)`: as ParseInt, with hexadecimal digits and an optional `0x` prefix. */
  function ParseHex(s: string): Option<int> {
    ParseSigned(Strip(s), 16, true)
  }

  lemma DigitsValueOfNat(n: nat)
    ensures ValidDigits(NatToStr(n), 10) && DigitsValue(NatToStr(n), 10) == n
  {
    DecimalDigitsValid(NatToStr(n));
    NatToStrValue(n);
  }

  /** Reading back the decimal digits of `n` gives `n`. */
  lemma {:induction false} NatToStrValue(n: nat)
    ensures DigitsValue(NatToStr(n), 10) == n
  {
    var s := NatToStr(n);
    var q, c := n / 10, DigitChar(n % 10);
    DigitCharValue(n % 10);
    if n >= 10 {
      NatToStrValue(q);
      DigitsValueSnoc(NatToStr(q), c);
      assert s == NatToStr(q) + [c];
    } else {
      DigitsValueSnoc([], c);
      assert s == [] + [c];
    }
  }

  lemma DigitsValueSnoc(d: string, c: char)
    requires c != '_'
    ensures DigitsValue(d + [c], 10) == DigitsValue(d, 10) * 10 + DigitVal(c)
  {
    assert (d + [c])[..|d|] == d;
  }

  lemma DigitCharValue(d: nat)
    requires d < 10
    ensures DigitChar(d) != '_' && DigitVal(DigitChar(d)) == d
  {
  }

  lemma DecimalDigitsValid(s: string)
    requires s != [] && forall i :: 0 <= i < |s| ==> '0' <= s[i] <= '9'
    ensures ValidDigits(s, 10)
  {
    forall i | 0 <= i < |s|
      ensures IsDigitIn(s[i], 10)
    {
    }
  }

  /** `int(str(n)) == n` for every integer. */
  lemma ParseIntOfIntToStr(n: int)
    ensures ParseInt(IntToStr(n)) == Some(n)
  {
    StripIntToStr(n);
    ParseSignedOfIntToStr(n);
  }

  lemma StripIntToStr(n: int)
    ensures ParseInt(IntToStr(n)) == ParseSigned(IntToStr(n), 10, false)
  {
    StripUnchanged(IntToStr(n));
  }

  lemma ParseSignedOfIntToStr(n: int)
    ensures ParseSigned(IntToStr(n), 10, false) == Some(n)
  {
    if n < 0 {
      ParseNegative(n);
    } else {
      DigitsValueOfNat(n);
    }
  }

  lemma ParseNegative(n: int)
    requires n < 0
    ensures ParseSigned(IntToStr(n), 10, false) == Some(n)
  {
    var m: nat := -n;
    var t := IntToStr(n);
    assert t == "-" + NatToStr(m);
    assert t[0] == '-' && t[1..] == NatToStr(m);
    MagnitudeOfNat(m);
  }

  lemma MagnitudeOfNat(m: nat)
    ensures ParseMagnitude(NatToStr(m), 10, false) == Some(m)
  {
    DigitsValueOfNat(m);
  }

  // ---------------------------------------------------------------- sequences

  /**
   * `s[i]` for a list: a negative index counts from the end; `None`
   * where Python raises `IndexError`.
   */
  function PyIndex<T>(s: seq<T>, i: int): (r: Option<T>)
    ensures r.Some? <==> -|s| <= i < |s|
    ensures 0 <= i < |s| ==> r == Some(s[i])
    ensures -|s| <= i < 0 ==> r == Some(s[|s| + i])
  {
    if 0 <= i < |s| then Some(s[i])
    else if -|s| <= i < 0 then Some(s[|s| + i])
    else None
  }

  /** Concatenation regrouped. */
  lemma AppendAssoc<T>(a: seq<T>, b: seq<T>, c: seq<T>)
    ensures a + b + c == a + (b + c)
  {
  }

  lemma AppendHeadTail<T>(g: seq<T>, s: seq<T>)
    requires s != []
    ensures g + [s[0]] + s[1..] == g + s
  {
    assert [s[0]] + s[1..] == s;
    assert g + [s[0]] + s[1..] == g + ([s[0]] + s[1..]);
  }

  /** `str(n)` never gives one string for two integers. */
  lemma IntToStrInjective(a: int, b: int)
    requires IntToStr(a) == IntToStr(b)
    ensures a == b
  {
    ParseIntOfIntToStr(a);
    ParseIntOfIntToStr(b);
  }

  /** Equal strings with a common prefix and suffix have equal middles. */
  lemma CancelAround(a: string, x: string, y: string, b: string)
    requires a + x + b == a + y + b
    ensures x == y
  {
    var s := a + x + b;
    assert |x| == |y|;
    assert x == s[|a|..|a| + |x|];
  }


  /** `s[:n]` for `n >= 0`. */
  function Take<T>(s: seq<T>, n: nat): seq<T> {
    if |s| <= n then s else s[..n]
  }

  /** `s[a:b]` for `0 <= a`: both bounds clamped to the length. */
  function Slice<T>(s: seq<T>, a: nat, b: nat): seq<T> {
    if b <= a || |s| <= a then [] else s[a..if b <= |s| then b else |s|]
  }
}
