/** JavaScript value semantics the handlers rely on: truthiness, `trim`, the regex
    character classes `\s` and `\W`, `split(" ")`, `parseInt`, `Number`,
    `Math.ceil` of a quotient, `Array.prototype.slice`, and UTF-16 length. */
module Js {

  datatype Option<+T> = None | Some(value: T)

  /** A request field as Express delivers it. Numbers are integers in this model. */
  datatype JsValue = Undefined | Null | Bool(b: bool) | Num(n: int) | Str(s: string)

  /** `!!v` */
  predicate Truthy(v: JsValue) {
    match v
    case Undefined => false
    case Null => false
    case Bool(b) => b
    case Num(n) => n != 0
    case Str(s) => s != ""
  }

  /** `!!v` for a field that is either a string or absent. */
  predicate Present(o: Option<string>) {
    o.Some? && o.value != ""
  }

  /** `a || b` on two optional strings. */
  function OrElse(a: Option<string>, b: Option<string>): (r: Option<string>)
    ensures Present(a) ==> r == a
    ensures !Present(a) ==> r == b
  {
    if Present(a) then a else b
  }

  /** ECMAScript WhiteSpace and LineTerminator code points: what `trim` removes and `\s` matches. */
  predicate IsWhite(c: char) {
    || c == '\t' || c == '\n' || c == '\U{000B}' || c == '\U{000C}' || c == '\r' || c == ' '
    || c == '\U{00A0}' || c == '\U{1680}' || ('\U{2000}' <= c <= '\U{200A}')
    || c == '\U{2028}' || c == '\U{2029}' || c == '\U{202F}' || c == '\U{205F}'
    || c == '\U{3000}' || c == '\U{FEFF}'
  }

  /** The regex class `\w` without the `u` flag: `[A-Za-z0-9_]`. */
  predicate IsWordChar(c: char) {
    ('A' <= c <= 'Z') || ('a' <= c <= 'z') || ('0' <= c <= '9') || c == '_'
  }

  /** The regex class `[\s\W]`; every `\s` character is already outside `\w`. */
  predicate IsBoundaryChar(c: char) {
    IsWhite(c) || !IsWordChar(c)
  }

  lemma BoundaryIsNonWord(c: char)
    ensures IsBoundaryChar(c) <==> !IsWordChar(c)
  {
  }

  function TrimStart(s: string): (r: string)
    ensures |r| <= |s| && r == s[|s| - |r|..]
    ensures r == [] || !IsWhite(r[0])
    ensures forall i :: 0 <= i < |s| - |r| ==> IsWhite(s[i])
  {
    if s != [] && IsWhite(s[0]) then TrimStart(s[1..]) else s
  }

  function TrimEnd(s: string): (r: string)
    ensures |r| <= |s| && r == s[..|r|]
    ensures r == [] || !IsWhite(r[|r| - 1])
    ensures forall i :: |r| <= i < |s| ==> IsWhite(s[i])
  {
    if s != [] && IsWhite(s[|s| - 1]) then TrimEnd(s[..|s| - 1]) else s
  }

  /** `s.trim()` */
  function Trim(s: string): string {
    TrimEnd(TrimStart(s))
  }

  predicate Trimmed(s: string) {
    s == [] || (!IsWhite(s[0]) && !IsWhite(s[|s| - 1]))
  }

  lemma TrimIsTrimmed(s: string)
    ensures Trimmed(Trim(s))
  {
    var a := TrimStart(s);
    var b := TrimEnd(a);
    if b != [] {
      assert b[0] == a[0];
    }
  }

  lemma TrimOfTrimmed(s: string)
    requires Trimmed(s)
    ensures Trim(s) == s
  {
  }

  predicate StartsWith(s: string, prefix: string) {
    |prefix| <= |s| && s[..|prefix|] == prefix
  }

  /** Text whose character at `i` differs from the prefix's does not start with it. */
  lemma DiffersAt(s: string, prefix: string, i: nat)
    requires i < |s| && i < |prefix| && s[i] != prefix[i]
    ensures !StartsWith(s, prefix)
  {
  }

  /** `s.includes(part)` */
  predicate Includes(s: string, part: string) {
    StartsWith(s, part) || (s != [] && Includes(s[1..], part))
  }

  /** `part` sits in `s` at index `i`. */
  predicate OccursAt(s: string, part: string, i: int) {
    0 <= i && i + |part| <= |s| && s[i..i + |part|] == part
  }

  /** `Includes` agrees with the index-based definition of a substring. */
  lemma {:induction false} IncludesIffOccurs(s: string, part: string)
    ensures Includes(s, part) <==> exists i :: OccursAt(s, part, i)
    decreases |s|
  {
    if StartsWith(s, part) {
      assert OccursAt(s, part, 0);
    } else if s == [] {
      assert part != [];
    } else {
      IncludesIffOccurs(s[1..], part);
      if exists i :: OccursAt(s[1..], part, i) {
        var i :| OccursAt(s[1..], part, i);
        assert s[1..][i..i + |part|] == s[i + 1..i + 1 + |part|];
        assert OccursAt(s, part, i + 1);
      }
      if exists i :: OccursAt(s, part, i) {
        var i :| OccursAt(s, part, i);
        assert i != 0;
        assert s[1..][i - 1..i - 1 + |part|] == s[i..i + |part|];
        assert OccursAt(s[1..], part, i - 1);
      }
    }
  }

  /** A part that starts at no index of `a` and is not in `b` is not in `a + b`. */
  lemma {:induction false} NotIncludedAcross(a: string, b: string, part: string)
    requires forall k :: 0 <= k < |a| ==> !StartsWith((a + b)[k..], part)
    requires !Includes(b, part)
    ensures !Includes(a + b, part)
    decreases |a|
  {
    if a == [] {
      assert a + b == b;
    } else {
      assert (a + b)[1..] == a[1..] + b;
      forall k | 0 <= k < |a[1..]|
        ensures !StartsWith((a[1..] + b)[k..], part)
      {
        assert (a[1..] + b)[k..] == (a + b)[k + 1..];
      }
      NotIncludedAcross(a[1..], b, part);
      assert !StartsWith((a + b)[0..], part);
      assert (a + b)[0..] == a + b;
    }
  }

  /** The first index of `c` in `s`. */
  function IndexOf(s: string, c: char): (r: Option<nat>)
    ensures r.None? <==> c !in s
    ensures r.Some? ==> r.value < |s| && s[r.value] == c && c !in s[..r.value]
  {
    if s == [] then None
    else if s[0] == c then Some(0)
    else match IndexOf(s[1..], c)
      case None => None
      case Some(i) => Some(i + 1)
  }

  /** `s.split(" ")`: always at least one field, none containing a space. */
  function SplitSpace(s: string): (r: seq<string>)
    ensures |r| >= 1
    ensures forall k :: 0 <= k < |r| ==> ' ' !in r[k]
    decreases |s|
  {
    match IndexOf(s, ' ')
    case None => [s]
    case Some(i) => [s[..i]] + SplitSpace(s[i + 1..])
  }

  /** `fields.join(" ")` */
  function JoinSpace(fields: seq<string>): string
    requires |fields| >= 1
  {
    if |fields| == 1 then fields[0] else fields[0] + " " + JoinSpace(fields[1..])
  }

  /** Splitting on spaces loses nothing: joining the fields back gives the input. */
  lemma {:induction false} SplitJoinSpace(s: string)
    ensures JoinSpace(SplitSpace(s)) == s
    decreases |s|
  {
    match IndexOf(s, ' ')
    case None =>
    case Some(i) =>
      var rest := SplitSpace(s[i + 1..]);
      SplitJoinSpace(s[i + 1..]);
      JoinCons(s[..i], rest);
      assert s == s[..i] + " " + s[i + 1..];
  }

  lemma JoinCons(a: string, rest: seq<string>)
    requires |rest| >= 1
    ensures JoinSpace([a] + rest) == a + " " + JoinSpace(rest)
  {
    assert ([a] + rest)[1..] == rest;
  }

  /** `(s.split(" "))[1]`, `undefined` when there is no second field. */
  function SecondField(s: string): Option<string> {
    var fields := SplitSpace(s);
    if |fields| >= 2 then Some(fields[1]) else None
  }

  lemma FirstFieldOfSpaceFree(t: string)
    requires ' ' !in t
    ensures SplitSpace(t) == [t]
  {
  }

  /** The first field is the whole string only when there is no space in it. */
  lemma FirstFieldWhole(t: string)
    ensures SplitSpace(t)[0] == t <==> ' ' !in t
  {
    match IndexOf(t, ' ')
    case None =>
    case Some(i) =>
      assert |SplitSpace(t)[0]| == i < |t|;
  }

  function DecimalValue(c: char): nat
    requires '0' <= c <= '9'
  {
    (c as int - '0' as int) as nat
  }

  predicate IsHexDigit(c: char) {
    ('0' <= c <= '9') || ('a' <= c <= 'f') || ('A' <= c <= 'F')
  }

  function HexValue(c: char): (v: nat)
    requires IsHexDigit(c)
    ensures v < 16
  {
    if '0' <= c <= '9' then DecimalValue(c)
    else if 'a' <= c <= 'f' then (c as int - 'a' as int + 10) as nat
    else (c as int - 'A' as int + 10) as nat
  }

  predicate IsRadixDigit(c: char, radix: nat) {
    if radix == 16 then IsHexDigit(c) else '0' <= c <= '9'
  }

  /** Length of the longest prefix of digits in the radix. */
  function DigitRun(s: string, radix: nat): (n: nat)
    ensures n <= |s|
    ensures forall i :: 0 <= i < n ==> IsRadixDigit(s[i], radix)
    ensures n < |s| ==> !IsRadixDigit(s[n], radix)
  {
    if s != [] && IsRadixDigit(s[0], radix) then 1 + DigitRun(s[1..], radix) else 0
  }

  /** Value of a digit string read most significant first. */
  function DigitsValue(s: string, radix: nat): nat
    requires radix == 10 || radix == 16
    requires forall i :: 0 <= i < |s| ==> IsRadixDigit(s[i], radix)
  {
    if s == [] then 0
    else
      assert IsRadixDigit(s[|s| - 1], radix);
      var d := if radix == 16 then HexValue(s[|s| - 1]) else DecimalValue(s[|s| - 1]);
      DigitsValue(s[..|s| - 1], radix) * radix + d
  }

  /** The value of the longest digit prefix, `None` when there is none. */
  function LeadingDigits(digits: string, radix: nat): Option<nat>
    requires radix == 10 || radix == 16
  {
    var n := DigitRun(digits, radix);
    if n == 0 then None
    else
      var run := digits[..n];
      assert forall i :: 0 <= i < |run| ==> IsRadixDigit(run[i], radix);
      Some(DigitsValue(run, radix))
  }

  /** `parseInt(s)` with no radix: leading white space, an optional sign, an optional
      `0x`/`0X` prefix selecting base 16, then the longest run of digits. `None` is NaN. */
  function ParseInt(s: string): Option<int> {
    var t := TrimStart(s);
    var negative := t != [] && t[0] == '-';
    var u := if t != [] && (t[0] == '-' || t[0] == '+') then t[1..] else t;
    var hex := |u| >= 2 && u[0] == '0' && (u[1] == 'x' || u[1] == 'X');
    match LeadingDigits(if hex then u[2..] else u, if hex then 16 else 10)
    case None => None
    case Some(v) => Some(if negative then 0 - (v as int) else v as int)
  }

  /** `parseInt(v)` for any request value: non-strings are converted to their text first. */
  function ParseIntValue(v: JsValue): Option<int> {
    match v
    case Str(s) => ParseInt(s)
    case Num(n) => Some(n)
    case _ => None
  }

  /** `Number(s)` for a query-string value, restricted to signed decimal integers;
      every other text is NaN here. The empty (or all-blank) text is 0. */
  function ToNumber(s: string): Option<int> {
    var t := Trim(s);
    if t == [] then Some(0)
    else
      var negative := t[0] == '-';
      var u := if t[0] == '-' || t[0] == '+' then t[1..] else t;
      if u != [] && DigitRun(u, 10) == |u| then
        var v := DigitsValue(u, 10);
        var r: int := if negative then 0 - (v as int) else v as int;
        Some(r)
      else None
  }

  /** `Number(q) || fallback` for an optional query parameter. */
  function NumberOr(q: Option<string>, fallback: int): (r: int)
    ensures r != 0 || fallback == 0
  {
    match q
    case None => fallback
    case Some(s) =>
      match ToNumber(s)
      case Some(n) => if n != 0 then n else fallback
      case None => fallback
  }

  /** `Math.ceil(a / b)` */
  function CeilDiv(a: int, b: int): (r: int)
    requires b != 0
    ensures b > 0 ==> (r - 1) * b < a <= r * b
    ensures b < 0 ==> r * b <= a < (r - 1) * b
  {
    if b > 0 then
      var q := (-a) / b;
      assert -a == q * b + (-a) % b;
      -q
    else
      var q := a / (-b);
      assert a == q * (-b) + a % (-b);
      -q
  }

  /** `Array.prototype.slice` index normalisation: negative counts from the end. */
  function SliceIndex(i: int, len: nat): (r: nat)
    ensures r <= len
    ensures 0 <= i <= len ==> r == i
  {
    if i < 0 then (if len + i < 0 then 0 else len + i) else if i > len then len else i
  }

  /** `s.slice(start, end)` */
  function Slice<T>(s: seq<T>, start: int, end: int): (r: seq<T>)
    ensures 0 <= start <= end <= |s| ==> r == s[start..end]
    ensures 0 <= start <= |s| <= end ==> r == s[start..]
  {
    var a := SliceIndex(start, |s|);
    var b := SliceIndex(end, |s|);
    if a < b then s[a..b] else []
  }

  /** `s.length`: UTF-16 code units, two for a code point above U+FFFF. */
  function Utf16Length(s: string): (n: nat)
    ensures n >= |s|
  {
    if s == [] then 0 else (if s[0] as int > 0xFFFF then 2 else 1) + Utf16Length(s[1..])
  }

  /** `toLowerCase` on the ASCII range; other characters are kept. */
  function LowerChar(c: char): char {
    if 'A' <= c <= 'Z' then (c as int + 32) as char else c
  }

  function Lower(s: string): (r: string)
    ensures |r| == |s|
    ensures forall i :: 0 <= i < |s| ==> r[i] == LowerChar(s[i])
  {
    if s == [] then [] else [LowerChar(s[0])] + Lower(s[1..])
  }

  function Repeat(c: char, n: nat): (r: string)
    ensures |r| == n
    ensures forall i :: 0 <= i < n ==> r[i] == c
  {
    if n == 0 then [] else [c] + Repeat(c, n - 1)
  }
}
