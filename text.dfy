/** The two pieces of Python text handling the puzzle reader relies on: `str.split` with a
    one-character separator, and `int()` on a decimal literal; plus their inverses, used to
    state that a cage descriptor is read back as written. */
module Text {
  import opened Lists

  /** `s.split(sep)`: the maximal separator-free pieces, empty pieces included. */
  function Split(s: string, sep: char): (r: seq<string>)
    ensures |r| >= 1
    ensures forall i :: 0 <= i < |r| ==> sep !in r[i]
  {
    if s == [] then [""]
    else
      var rest := Split(s[1..], sep);
      if s[0] == sep then [""] + rest
      else [[s[0]] + rest[0]] + rest[1..]
  }

  /** `sep.join(parts)`. */
  function Join(parts: seq<string>, sep: char): string
    requires |parts| >= 1
  {
    if |parts| == 1 then parts[0] else parts[0] + [sep] + Join(parts[1..], sep)
  }

  lemma {:induction false} SplitPrefix(p: string, s: string, sep: char)
    requires sep !in p
    ensures Split(p + s, sep) == [p + Split(s, sep)[0]] + Split(s, sep)[1..]
  {
    if p != [] {
      var t := Split(s, sep);
      assert (p + s)[0] == p[0] != sep;
      assert (p + s)[1..] == p[1..] + s;
      SplitPrefix(p[1..], s, sep);
      assert Split(p + s, sep) == [[p[0]] + (p[1..] + t[0])] + t[1..];
      assert [p[0]] + (p[1..] + t[0]) == p + t[0];
    } else {
      var t := Split(s, sep);
      assert p + s == s && p + t[0] == t[0];
      assert t == [t[0]] + t[1..];
    }
  }

  /** Splitting what was joined gives back the parts, when no part holds the separator. */
  lemma {:induction false} SplitJoin(parts: seq<string>, sep: char)
    requires |parts| >= 1
    requires forall i :: 0 <= i < |parts| ==> sep !in parts[i]
    ensures Split(Join(parts, sep), sep) == parts
  {
    if |parts| == 1 {
      SplitPrefix(parts[0], "", sep);
      assert parts[0] + "" == parts[0];
    } else {
      var tail := Join(parts[1..], sep);
      SplitJoin(parts[1..], sep);
      assert Join(parts, sep) == parts[0] + ([sep] + tail);
      SplitPrefix(parts[0], [sep] + tail, sep);
      assert ([sep] + tail)[0] == sep && ([sep] + tail)[1..] == tail;
      assert Split([sep] + tail, sep) == [""] + parts[1..];
      assert parts[0] + "" == parts[0];
      assert parts == [parts[0]] + parts[1..];
    }
  }

  predicate IsDigit(c: char)
  {
    '0' <= c <= '9'
  }

  predicate AllDigits(s: string)
  {
    forall i :: 0 <= i < |s| ==> IsDigit(s[i])
  }

  /** The value of a string of decimal digits, most significant first. */
  function DigitsValue(s: string): nat
    requires AllDigits(s)
  {
    if s == [] then 0
    else 10 * DigitsValue(s[..|s| - 1]) + (s[|s| - 1] as int - '0' as int)
  }

  /** `int(s)` for an optional sign followed by ASCII digits; None where `int` raises. */
  function ParseInt(s: string): Option<int>
  {
    if |s| >= 1 && (s[0] == '-' || s[0] == '+') then
      var digits := s[1..];
      if digits != [] && AllDigits(digits) then
        var v: int := DigitsValue(digits);
        Some(if s[0] == '-' then -v else v)
      else None
    else if s != [] && AllDigits(s) then Some(DigitsValue(s))
    else None
  }

  /** `str(k)` for a natural number. */
  function NatToString(k: nat): (s: string)
    ensures s != [] && AllDigits(s)
  {
    if k < 10 then [('0' as int + k) as char]
    else NatToString(k / 10) + [('0' as int + k % 10) as char]
  }

  /** `str(t)` for an integer. */
  function IntToString(t: int): string
  {
    if t < 0 then "-" + NatToString(-t) else NatToString(t)
  }

  lemma {:induction false} NatToStringValue(k: nat)
    ensures DigitsValue(NatToString(k)) == k
  {
    if k >= 10 {
      var s := NatToString(k);
      NatToStringValue(k / 10);
      assert s[..|s| - 1] == NatToString(k / 10);
    }
  }

  /** Reading back a printed integer gives the integer. */
  lemma ParseIntToString(t: int)
    ensures ParseInt(IntToString(t)) == Some(t)
  {
    var s := IntToString(t);
    if t < 0 {
      var d := NatToString(-t);
      NatToStringValue(-t);
      assert s == "-" + d && s[0] == '-' && s[1..] == d;
    } else {
      NatToStringValue(t);
      assert IsDigit(s[0]);
    }
  }

  lemma IntToStringHasNo(t: int, c: char)
    requires c != '-' && !IsDigit(c)
    ensures c !in IntToString(t)
  {
    var d := if t < 0 then NatToString(-t) else NatToString(t);
    assert c !in d;
    if t < 0 {
      assert IntToString(t) == "-" + d;
    }
  }
}
