/** The JavaScript string built-ins the components rely on, written out with
    the semantics ECMAScript gives them: `split`/`join` on a non-empty
    separator, `indexOf`, `startsWith`, `toLowerCase`, `toUpperCase`,
    `replace(/c/g, d)`, `parseInt` with no radix and `Number.prototype.toString`
    for integers. */
module JsText {
  import opened Wrappers

  // ---------------------------------------------------------------------------
  // Searching

  /** `sep` occurs in `s` at index `j`. */
  predicate OccursAt(s: string, sep: string, j: int) {
    0 <= j && j + |sep| <= |s| && s[j..j + |sep|] == sep
  }

  /** The first occurrence of `sep` in `s` at or after index `from`. */
  function IndexFrom(s: string, sep: string, from: nat): (r: Option<nat>)
    requires |sep| > 0
    ensures r.Some? ==> from <= r.value && OccursAt(s, sep, r.value)
    ensures r.Some? ==> forall j :: from <= j < r.value ==> !OccursAt(s, sep, j)
    ensures r.None? ==> forall j :: from <= j ==> !OccursAt(s, sep, j)
    decreases |s| - from
  {
    if from + |sep| > |s| then None
    else if s[from..from + |sep|] == sep then Some(from)
    else IndexFrom(s, sep, from + 1)
  }

  /** `s.indexOf(sep)`, with `-1` as `None`. */
  function IndexOf(s: string, sep: string): (r: Option<nat>)
    requires |sep| > 0
    ensures r.Some? ==> OccursAt(s, sep, r.value)
    ensures r.Some? ==> forall j :: 0 <= j < r.value ==> !OccursAt(s, sep, j)
    ensures r.None? ==> forall j :: !OccursAt(s, sep, j)
  {
    IndexFrom(s, sep, 0)
  }

  // ---------------------------------------------------------------------------
  // split and join

  /** `s.split(sep)` for a non-empty separator: the pieces between successive
      non-overlapping occurrences, scanning left to right. */
  function Split(s: string, sep: string): (parts: seq<string>)
    requires |sep| > 0
    ensures |parts| >= 1
    decreases |s|
  {
    match IndexOf(s, sep)
    case None => [s]
    case Some(i) => [s[..i]] + Split(s[i + |sep|..], sep)
  }

  /** `parts.join(sep)`; the empty array joins to `""`. */
  function Join(parts: seq<string>, sep: string): (r: string)
    ensures |parts| > 0 ==> |parts[0]| <= |r| && r[..|parts[0]|] == parts[0]
    decreases |parts|
  {
    if |parts| == 0 then ""
    else if |parts| == 1 then parts[0]
    else parts[0] + sep + Join(parts[1..], sep)
  }

  /** One step of a split: the piece before the first occurrence, then the split of the rest. */
  lemma SplitAt(s: string, sep: string, i: nat)
    requires |sep| > 0 && IndexOf(s, sep) == Some(i)
    ensures Split(s, sep) == [s[..i]] + Split(s[i + |sep|..], sep)
    ensures s == s[..i] + sep + s[i + |sep|..]
  {
    SplitFirst(s, sep, i);
    Reassemble(s, |sep|, i);
    assert s[i..i + |sep|] == sep;
  }

  /** The split of a string whose first separator is at `i`. */
  lemma SplitFirst(s: string, sep: string, i: nat)
    requires |sep| > 0 && IndexOf(s, sep) == Some(i)
    ensures Split(s, sep) == [s[..i]] + Split(s[i + |sep|..], sep)
  {
  }

  /** A string is its prefix, the `n` characters at `i`, and the rest. */
  lemma Reassemble(s: string, n: nat, i: nat)
    requires i + n <= |s|
    ensures s == s[..i] + s[i..i + n] + s[i + n..]
  {
  }

  lemma JoinCons(head: string, parts: seq<string>, sep: string)
    requires |parts| >= 1
    ensures Join([head] + parts, sep) == head + sep + Join(parts, sep)
  {
    assert ([head] + parts)[1..] == parts;
  }

  /** Joining two non-empty lists of pieces puts one separator between their joins. */
  lemma {:induction false} JoinAppend(a: seq<string>, b: seq<string>, sep: string)
    requires |a| >= 1 && |b| >= 1
    ensures Join(a + b, sep) == Join(a, sep) + sep + Join(b, sep)
    decreases |a|
  {
    if |a| == 1 {
      assert a + b == [a[0]] + b;
      JoinCons(a[0], b, sep);
    } else {
      var tail := a[1..];
      assert a + b == [a[0]] + (tail + b);
      assert a == [a[0]] + tail;
      JoinCons(a[0], tail + b, sep);
      JoinAppend(tail, b, sep);
      JoinCons(a[0], tail, sep);
    }
  }

  /** Joining the pieces of a split with the same separator gives the string back. */
  lemma {:induction false} JoinSplit(s: string, sep: string)
    requires |sep| > 0
    ensures Join(Split(s, sep), sep) == s
    decreases |s|
  {
    match IndexOf(s, sep)
    case None =>
    case Some(i) =>
      var head, rest := s[..i], s[i + |sep|..];
      JoinSplit(rest, sep);
      SplitAt(s, sep, i);
      JoinCons(head, Split(rest, sep), sep);
  }

  /** No piece of a split contains the separator. */
  lemma {:induction false} SplitPiecesFree(s: string, sep: string)
    requires |sep| > 0
    ensures forall k :: 0 <= k < |Split(s, sep)| ==> IndexOf(Split(s, sep)[k], sep).None?
    decreases |s|
  {
    match IndexOf(s, sep)
    case None =>
    case Some(i) =>
      var rest := s[i + |sep|..];
      SplitPiecesFree(rest, sep);
      var head := s[..i];
      assert IndexOf(head, sep).None? by {
        if IndexOf(head, sep).Some? {
          var j := IndexOf(head, sep).value;
          assert head[j..j + |sep|] == s[j..j + |sep|];
          assert OccursAt(s, sep, j);
        }
      }
      assert Split(s, sep) == [head] + Split(rest, sep);
  }

  /** A string in which the separator does not occur splits into itself. */
  lemma SplitNoSeparator(s: string, sep: string)
    requires |sep| > 0
    requires IndexOf(s, sep).None?
    ensures Split(s, sep) == [s]
  {
  }

  /** A separator whose first character is absent from `a`, and one of whose
      characters is absent from `b`, splits `a + sep + b` into `a` and `b`. */
  lemma SplitOnce(a: string, sep: string, b: string, k: nat)
    requires |sep| > 0 && sep[0] !in a
    requires k < |sep| && sep[k] !in b
    ensures Split(a + sep + b, sep) == [a, b]
  {
    var s := a + sep + b;
    assert s[|a|..|a| + |sep|] == sep;
    assert OccursAt(s, sep, |a|);
    forall j | 0 <= j < |a| ensures !OccursAt(s, sep, j) {
      assert s[j] == a[j];
    }
    assert IndexOf(s, sep) == Some(|a|);
    SplitAt(s, sep, |a|);
    assert s[..|a|] == a && s[|a| + |sep|..] == b;
    forall j | 0 <= j ensures !OccursAt(b, sep, j) {
      if j + |sep| <= |b| {
        assert b[j..j + |sep|][k] == b[j + k];
      }
    }
    SplitNoSeparator(b, sep);
  }

  /** `s` with every `c` taken out: the reference for `s.split(c).join("")`. */
  function RemoveChar(s: string, c: char): (r: string)
    ensures c !in r
    ensures |r| <= |s|
    decreases |s|
  {
    if |s| == 0 then ""
    else if s[0] == c then RemoveChar(s[1..], c)
    else [s[0]] + RemoveChar(s[1..], c)
  }

  lemma {:induction false} RemoveCharAppend(a: string, b: string, c: char)
    ensures RemoveChar(a + b, c) == RemoveChar(a, c) + RemoveChar(b, c)
    decreases |a|
  {
    if |a| == 0 {
      assert a + b == b;
    } else {
      assert (a + b)[1..] == a[1..] + b;
      RemoveCharAppend(a[1..], b, c);
    }
  }

  lemma {:induction false} RemoveCharAbsent(s: string, c: char)
    requires c !in s
    ensures RemoveChar(s, c) == s
    decreases |s|
  {
    if |s| > 0 {
      RemoveCharAbsent(s[1..], c);
    }
  }

  /** `s.split(c).join("")` deletes every `c` and keeps everything else in order. */
  lemma {:induction false} SplitJoinRemoves(s: string, c: char)
    ensures Join(Split(s, [c]), "") == RemoveChar(s, c)
    decreases |s|
  {
    match IndexOf(s, [c])
    case None =>
      CharAbsentBefore(s, c, |s|);
      RemoveCharAbsent(s, c);
    case Some(i) =>
      var head, rest := s[..i], s[i + 1..];
      SplitJoinRemoves(rest, c);
      SplitAt(s, [c], i);
      JoinCons(head, Split(rest, [c]), "");
      CharAbsentBefore(s, c, i);
      RemoveCharAbsent(head, c);
      RemoveCharAppend(head + [c], rest, c);
      RemoveCharAppend(head, [c], c);
  }

  /** A one-character separator that does not occur before index `i` is not
      among the first `i` characters. */
  lemma CharAbsentBefore(s: string, c: char, i: nat)
    requires i <= |s|
    requires forall j :: 0 <= j < i ==> !OccursAt(s, [c], j)
    ensures c !in s[..i]
  {
    forall j | 0 <= j < i ensures s[j] != c {
      assert !OccursAt(s, [c], j);
      assert s[j..j + 1] == [s[j]];
    }
  }

  // ---------------------------------------------------------------------------
  // Case mapping

  /** Upper-case letters for which `toLowerCase` is modelled: A–Z and the
      Latin-1 capitals À–Þ other than the multiplication sign ×. */
  predicate IsModelledUpper(ch: char) {
    ('A' <= ch <= 'Z') || ('\U{C0}' <= ch <= '\U{DE}' && ch != '\U{D7}')
  }

  /** Lower-case letters for which `toUpperCase` is modelled: a–z and the
      Latin-1 small letters à–þ other than the division sign ÷. */
  predicate IsModelledLower(ch: char) {
    ('a' <= ch <= 'z') || ('\U{E0}' <= ch <= '\U{FE}' && ch != '\U{F7}')
  }

  function ToLowerChar(ch: char): (r: char)
    ensures IsModelledUpper(ch) ==> IsModelledLower(r) && r as int == ch as int + 32
    ensures !IsModelledUpper(ch) ==> r == ch
  {
    if IsModelledUpper(ch) then (ch as int + 32) as char else ch
  }

  function ToUpperChar(ch: char): (r: char)
    ensures IsModelledLower(ch) ==> IsModelledUpper(r) && r as int == ch as int - 32
    ensures !IsModelledLower(ch) ==> r == ch
  {
    if IsModelledLower(ch) then (ch as int - 32) as char else ch
  }

  /** Upper- and lower-casing undo each other on the modelled letters. */
  lemma CaseRoundTrip(ch: char)
    ensures IsModelledLower(ch) ==> ToLowerChar(ToUpperChar(ch)) == ch
    ensures IsModelledUpper(ch) ==> ToUpperChar(ToLowerChar(ch)) == ch
  {
  }

  /** `s.toLowerCase()` (see IsModelledUpper for the letters it covers). */
  function ToLowerCase(s: string): (r: string)
    ensures |r| == |s|
    ensures forall i :: 0 <= i < |s| ==> r[i] == ToLowerChar(s[i])
  {
    seq(|s|, i requires 0 <= i < |s| => ToLowerChar(s[i]))
  }

  /** Lower-casing leaves no modelled capital behind and so is idempotent. */
  lemma ToLowerCaseIdempotent(s: string)
    ensures forall i :: 0 <= i < |s| ==> !IsModelledUpper(ToLowerCase(s)[i])
    ensures ToLowerCase(ToLowerCase(s)) == ToLowerCase(s)
  {
  }

  /** `s.startsWith(prefix)` */
  predicate StartsWith(s: string, prefix: string): (r: bool)
    ensures r <==> |prefix| <= |s| && forall i :: 0 <= i < |prefix| ==> s[i] == prefix[i]
  {
    |prefix| <= |s| && s[..|prefix|] == prefix
  }

  /** `s.charAt(0).toUpperCase() + s.slice(1)`. */
  function Capitalize(s: string): (r: string)
    ensures |r| == |s|
    ensures |s| > 0 ==> r[0] == ToUpperChar(s[0]) && r[1..] == s[1..]
  {
    if |s| == 0 then "" else [ToUpperChar(s[0])] + s[1..]
  }

  /** `s.replace(/from/g, to)` for a one-character pattern. */
  function ReplaceChar(s: string, from: char, to: char): (r: string)
    ensures |r| == |s|
    ensures from != to ==> from !in r
    ensures forall i :: 0 <= i < |s| && s[i] != from ==> r[i] == s[i]
    ensures forall i :: 0 <= i < |s| && s[i] == from ==> r[i] == to
  {
    seq(|s|, i requires 0 <= i < |s| => if s[i] == from then to else s[i])
  }

  /** `xs.slice(start, end)` for non-negative bounds: both are clamped to the length. */
  function Slice<T>(xs: seq<T>, start: nat, end: nat): (r: seq<T>)
    ensures |r| <= |xs| && |r| <= if end <= start then 0 else end - start
    ensures start <= end <= |xs| ==> r == xs[start..end]
    ensures forall i :: 0 <= i < |r| ==> start + i < |xs| && r[i] == xs[start + i]
  {
    var lo := if start < |xs| then start else |xs|;
    var hi := if end < |xs| then end else |xs|;
    if hi <= lo then [] else xs[lo..hi]
  }

  // ---------------------------------------------------------------------------
  // parseInt and toString

  /** The WhiteSpace and LineTerminator characters of ECMA-262, which `parseInt` skips. */
  predicate IsJsWhiteSpace(ch: char) {
    ch == '\t' || ch == '\n' || ch == '\U{B}' || ch == '\U{C}' || ch == '\r' || ch == ' '
    || ch == '\U{A0}' || ch == '\U{1680}' || ('\U{2000}' <= ch <= '\U{200A}')
    || ch == '\U{2028}' || ch == '\U{2029}' || ch == '\U{202F}' || ch == '\U{205F}'
    || ch == '\U{3000}' || ch == '\U{FEFF}'
  }

  /** `s` without its leading white space. */
  function TrimStart(s: string): (r: string)
    ensures |r| <= |s| && r == s[|s| - |r|..]
    ensures forall i :: 0 <= i < |s| - |r| ==> IsJsWhiteSpace(s[i])
    ensures |r| > 0 ==> !IsJsWhiteSpace(r[0])
    decreases |s|
  {
    if |s| > 0 && IsJsWhiteSpace(s[0]) then TrimStart(s[1..]) else s
  }

  /** The value of a digit character in radix 36 (0–9, then a/A = 10 … z/Z = 35). */
  function DigitValue(ch: char): (r: Option<nat>)
    ensures r.Some? ==> r.value < 36
    ensures '0' <= ch <= '9' ==> r == Some(ch as nat - '0' as nat)
  {
    if '0' <= ch <= '9' then Some(ch as nat - '0' as nat)
    else if 'a' <= ch <= 'z' then Some(ch as nat - 'a' as nat + 10)
    else if 'A' <= ch <= 'Z' then Some(ch as nat - 'A' as nat + 10)
    else None
  }

  predicate IsDigit(ch: char, radix: nat) {
    DigitValue(ch).Some? && DigitValue(ch).value < radix
  }

  /** Length of the longest prefix of `s` made of digits of `radix`. */
  function DigitPrefix(s: string, radix: nat): (k: nat)
    ensures k <= |s|
    ensures forall i :: 0 <= i < k ==> IsDigit(s[i], radix)
    ensures k < |s| ==> !IsDigit(s[k], radix)
    decreases |s|
  {
    if |s| > 0 && IsDigit(s[0], radix) then 1 + DigitPrefix(s[1..], radix) else 0
  }

  /** The number a string of digits denotes, most significant first. */
  function DigitsValue(ds: string, radix: nat): nat
    requires forall i :: 0 <= i < |ds| ==> IsDigit(ds[i], radix)
    decreases |ds|
  {
    if |ds| == 0 then 0
    else
      var last, init := ds[|ds| - 1], ds[..|ds| - 1];
      assert IsDigit(last, radix);
      assert forall i :: 0 <= i < |init| ==> IsDigit(init[i], radix) by {
        forall i | 0 <= i < |init| ensures IsDigit(init[i], radix) {
          assert init[i] == ds[i];
        }
      }
      Shift(DigitsValue(init, radix), radix) + DigitValue(last).value
  }

  /** `high` moved up one digit place in `radix`. */
  function Shift(high: nat, radix: nat): nat {
    high * radix
  }

  /** The unsigned part of `parseInt`: a `0x`/`0X` prefix selects radix 16,
      and the longest run of digits that follows is the value; no digit is NaN. */
  function ParseUnsigned(u: string): (r: Option<nat>)
    ensures (|u| == 0 || !('0' <= u[0] <= '9')) ==> r.None?
    ensures |u| > 0 && '1' <= u[0] <= '9' ==> r.Some?
    ensures |u| >= 2 && u[0] == '0' && !(u[1] == 'x' || u[1] == 'X') ==> r.Some?
    ensures |u| >= 2 && u[0] == '0' && (u[1] == 'x' || u[1] == 'X') ==>
      (r.Some? <==> |u| >= 3 && IsDigit(u[2], 16))
  {
    var hex := |u| >= 2 && u[0] == '0' && (u[1] == 'x' || u[1] == 'X');
    var radix: nat := if hex then 16 else 10;
    var v := if hex then u[2..] else u;
    var k := DigitPrefix(v, radix);
    if k == 0 then None else Some(DigitsValue(v[..k], radix))
  }

  /** `parseInt(s)` with no radix, `NaN` as `None`: leading white space is
      skipped, one sign is read, and the rest is read as ParseUnsigned says. */
  function ParseInt(s: string): (r: Option<int>)
    ensures |TrimStart(s)| == 0 ==> r.None?
    ensures r.Some? && r.value < 0 ==> |TrimStart(s)| > 0 && TrimStart(s)[0] == '-'
  {
    var t := TrimStart(s);
    if |t| > 0 && t[0] == '-' then
      match ParseUnsigned(t[1..])
      case None => None
      case Some(n) => Some(-(n as int))
    else if |t| > 0 && t[0] == '+' then
      match ParseUnsigned(t[1..])
      case None => None
      case Some(n) => Some(n)
    else
      match ParseUnsigned(t)
      case None => None
      case Some(n) => Some(n)
  }

  function DigitChar(d: nat): (ch: char)
    requires d < 10
    ensures '0' <= ch <= '9' && DigitValue(ch) == Some(d)
  {
    ('0' as int + d) as char
  }

  /** Decimal digits of `n`, no leading zero. */
  function NatToString(n: nat): (s: string)
    ensures |s| >= 1
    ensures forall i :: 0 <= i < |s| ==> '0' <= s[i] <= '9'
    ensures s[0] == '0' ==> n == 0 && |s| == 1
  {
    if n < 10 then [DigitChar(n)] else NatToString(n / 10) + [DigitChar(n % 10)]
  }

  /** `n.toString()` for an integer `n`. */
  function IntToString(n: int): (s: string)
    ensures |s| >= 1
    ensures s[0] == '-' <==> n < 0
    ensures forall i :: 0 < i < |s| ==> '0' <= s[i] <= '9'
    ensures n < 0 ==> |s| >= 2
  {
    if n < 0 then "-" + NatToString(-n) else NatToString(n)
  }

  lemma {:induction false} NatToStringValue(n: nat)
    ensures DigitPrefix(NatToString(n), 10) == |NatToString(n)|
    ensures DigitsValue(NatToString(n), 10) == n
  {
    var s := NatToString(n);
    assert forall i :: 0 <= i < |s| ==> IsDigit(s[i], 10);
    DigitPrefixAll(s, 10);
    if n >= 10 {
      NatToStringValue(n / 10);
      assert s[..|s| - 1] == NatToString(n / 10);
    }
  }

  lemma {:induction false} DigitPrefixAll(s: string, radix: nat)
    requires forall i :: 0 <= i < |s| ==> IsDigit(s[i], radix)
    ensures DigitPrefix(s, radix) == |s|
    decreases |s|
  {
    if |s| > 0 {
      DigitPrefixAll(s[1..], radix);
    }
  }

  lemma ParseUnsignedToString(n: nat)
    ensures ParseUnsigned(NatToString(n)) == Some(n)
  {
    var digits := NatToString(n);
    NatToStringValue(n);
    assert !(|digits| >= 2 && digits[0] == '0');
    assert digits[..|digits|] == digits;
  }

  /** `parseInt` reads back what `toString` writes. */
  lemma ParseIntToString(n: int)
    ensures ParseInt(IntToString(n)) == Some(n)
  {
    var m: nat := if n < 0 then -n else n;
    var digits := NatToString(m);
    ParseUnsignedToString(m);
    if n < 0 {
      assert IntToString(n) == "-" + digits;
      ParseIntNegative(digits, m);
    } else {
      assert IntToString(n) == digits;
      ParseIntUnsigned(digits, m);
    }
  }

  /** `parseInt` of text starting with a decimal digit is its unsigned reading. */
  lemma ParseIntUnsigned(u: string, v: nat)
    requires |u| > 0 && '0' <= u[0] <= '9' && ParseUnsigned(u) == Some(v)
    ensures ParseInt(u) == Some(v)
  {
    assert !IsJsWhiteSpace(u[0]);
    assert TrimStart(u) == u;
  }

  /** `parseInt` of `-` then text starting with a decimal digit is the negated
      unsigned reading. */
  lemma ParseIntNegative(u: string, v: nat)
    requires |u| > 0 && '0' <= u[0] <= '9' && ParseUnsigned(u) == Some(v)
    ensures ParseInt("-" + u) == Some(-(v as int))
  {
    var s := "-" + u;
    assert !IsJsWhiteSpace(s[0]);
    assert TrimStart(s) == s;
    assert s[0] == '-' && s[1..] == u;
  }

  /** `parseInt` of a plain run of decimal digits is their value. */
  lemma ParseIntDigits(ds: string)
    requires |ds| > 0 && forall i :: 0 <= i < |ds| ==> '0' <= ds[i] <= '9'
    ensures ParseInt(ds) == Some(DigitsValue(ds, 10) as int)
  {
    ParseUnsignedDigits(ds);
    ParseIntUnsigned(ds, DigitsValue(ds, 10));
  }

  lemma ParseUnsignedDigits(ds: string)
    requires |ds| > 0 && forall i :: 0 <= i < |ds| ==> '0' <= ds[i] <= '9'
    ensures ParseUnsigned(ds) == Some(DigitsValue(ds, 10))
  {
    assert forall i :: 0 <= i < |ds| ==> IsDigit(ds[i], 10);
    DigitPrefixAll(ds, 10);
    assert !(|ds| >= 2 && (ds[1] == 'x' || ds[1] == 'X'));
    assert ds[..|ds|] == ds;
  }
}
