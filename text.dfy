/**
 * The Python string operations the transform relies on: the ordering used by
 * `sorted`, `str.replace`, `str.join`, `str.split`, the `in` substring test
 * and `int()` of a digit string.
 */
module Text {

  /** Python's ordering of strings: code points compared left to right, a proper prefix first. */
  predicate Less(a: string, b: string)
    ensures a < b ==> Less(a, b)
    ensures Less(a, b) ==> a != b
    decreases |a|
  {
    if a == [] then b != []
    else if b == [] then false
    else a[0] < b[0] || (a[0] == b[0] && Less(a[1..], b[1..]))
  }

  lemma {:induction false} LessIrreflexive(a: string)
    ensures !Less(a, a)
    decreases |a|
  {
    if a != [] {
      LessIrreflexive(a[1..]);
    }
  }

  lemma {:induction false} LessTransitive(a: string, b: string, c: string)
    requires Less(a, b) && Less(b, c)
    ensures Less(a, c)
    decreases |a|
  {
    if a != [] && a[0] == b[0] && b[0] == c[0] {
      LessTransitive(a[1..], b[1..], c[1..]);
    }
  }

  lemma {:induction false} LessTotal(a: string, b: string)
    requires a != b
    ensures Less(a, b) || Less(b, a)
    decreases |a|
  {
    if a != [] && b != [] && a[0] == b[0] {
      assert a == [a[0]] + a[1..] && b == [b[0]] + b[1..];
      LessTotal(a[1..], b[1..]);
    }
  }

  lemma LessAsymmetric(a: string, b: string)
    requires Less(a, b)
    ensures !Less(b, a)
  {
    if Less(b, a) {
      LessTransitive(a, b, a);
      LessIrreflexive(a);
    }
  }

  /** `s.replace(c, r)` for a one-character pattern `c`. */
  function Replace(s: string, c: char, r: string): (t: string)
    ensures c !in s ==> t == s
    ensures c !in r ==> c !in t
  {
    if s == [] then []
    else (if s[0] == c then r else [s[0]]) + Replace(s[1..], c, r)
  }

  lemma {:induction false} ReplaceAppend(a: string, b: string, c: char, r: string)
    ensures Replace(a + b, c, r) == Replace(a, c, r) + Replace(b, c, r)
    decreases |a|
  {
    if a == [] {
      assert a + b == b;
    } else {
      assert (a + b)[1..] == a[1..] + b;
      ReplaceAppend(a[1..], b, c, r);
    }
  }

  /** `sep.join(parts)`. */
  function Join(parts: seq<string>, sep: string): (s: string)
  {
    if |parts| == 0 then []
    else if |parts| == 1 then parts[0]
    else parts[0] + sep + Join(parts[1..], sep)
  }

  /** Two parts joined: the first, the separator, the second. */
  lemma JoinTwo(parts: seq<string>, sep: string)
    requires |parts| == 2
    ensures Join(parts, sep) == parts[0] + sep + parts[1]
  {
    assert Join(parts[1..], sep) == parts[1];
  }

  /** A join holds a character only if a part or the separator does. */
  lemma {:induction false} JoinWithout(parts: seq<string>, sep: string, c: char)
    requires c !in sep && forall p | p in parts :: c !in p
    ensures c !in Join(parts, sep)
    decreases |parts|
  {
    if |parts| > 1 {
      JoinWithout(parts[1..], sep, c);
    }
  }

  /** How often `c` occurs in `s`. */
  function Count(s: string, c: char): (n: nat)
  {
    if s == [] then 0 else (if s[0] == c then 1 else 0) + Count(s[1..], c)
  }

  lemma {:induction false} CountAppend(a: string, b: string, c: char)
    ensures Count(a + b, c) == Count(a, c) + Count(b, c)
    decreases |a|
  {
    if a == [] {
      assert a + b == b;
    } else {
      var s := a + b;
      assert s[0] == a[0] && s[1..] == a[1..] + b;
      CountAppend(a[1..], b, c);
      assert Count(s, c) == (if a[0] == c then 1 else 0) + Count(a[1..] + b, c);
    }
  }

  lemma {:induction false} CountPositive(s: string, c: char)
    requires c in s
    ensures Count(s, c) >= 1
    decreases |s|
  {
    if s[0] != c {
      CountPositive(s[1..], c);
    }
  }

  /** `s.split(c)` for a one-character separator: always at least one part, possibly empty. */
  function Split(s: string, c: char): (parts: seq<string>)
    ensures |parts| == Count(s, c) + 1
    ensures forall p | p in parts :: c !in p
    ensures Join(parts, [c]) == s
  {
    if s == [] then [[]]
    else
      var rest := Split(s[1..], c);
      if s[0] == c then
        assert s == [c] + s[1..];
        [[]] + rest
      else
        assert s == [s[0]] + s[1..];
        [[s[0]] + rest[0]] + rest[1..]
  }

  lemma {:induction false} SplitWithout(s: string, c: char)
    requires c !in s
    ensures Split(s, c) == [s]
    decreases |s|
  {
    if s != [] {
      SplitWithout(s[1..], c);
    }
  }

  lemma {:induction false} SplitAt(a: string, b: string, c: char)
    requires c !in a
    ensures Split(a + [c] + b, c) == [a] + Split(b, c)
    decreases |a|
  {
    var s := a + [c] + b;
    if a == [] {
      assert s[1..] == b;
    } else {
      assert s[1..] == a[1..] + [c] + b;
      SplitAt(a[1..], b, c);
      assert [s[0]] + a[1..] == a;
    }
  }

  /** Splitting a join undoes it when no part holds the separator. */
  lemma {:induction false} SplitJoin(parts: seq<string>, c: char)
    requires |parts| >= 1
    requires forall p | p in parts :: c !in p
    ensures Split(Join(parts, [c]), c) == parts
    decreases |parts|
  {
    if |parts| == 1 {
      SplitWithout(parts[0], c);
    } else {
      SplitJoin(parts[1..], c);
      SplitAt(parts[0], Join(parts[1..], [c]), c);
      assert [parts[0]] + parts[1..] == parts;
    }
  }

  /** Every part after the first gets a leading space. */
  function Spaced(parts: seq<string>): (r: seq<string>)
    ensures |r| == |parts|
    ensures |parts| > 0 ==> r[0] == parts[0]
    ensures forall i | 0 < i < |parts| :: r[i] == " " + parts[i]
  {
    if |parts| == 0 then [] else [parts[0]] + seq(|parts| - 1, i requires 0 <= i < |parts| - 1 => " " + parts[i + 1])
  }

  lemma {:induction false} JoinLeadingSpace(parts: seq<string>)
    requires |parts| >= 1
    ensures " " + Join(parts, ", ") == Join(seq(|parts|, i requires 0 <= i < |parts| => " " + parts[i]), ",")
    decreases |parts|
  {
    var sp := seq(|parts|, i requires 0 <= i < |parts| => " " + parts[i]);
    if |parts| > 1 {
      JoinLeadingSpace(parts[1..]);
      assert sp[1..] == seq(|parts| - 1, i requires 0 <= i < |parts| - 1 => " " + parts[1..][i]);
    }
  }

  /** Joining with ", " is joining with "," after putting a space before every later part. */
  lemma JoinCommaSpace(parts: seq<string>)
    ensures Join(parts, ", ") == Join(Spaced(parts), ",")
  {
    if |parts| > 1 {
      var tail := parts[1..];
      JoinLeadingSpace(tail);
      assert Spaced(parts)[1..] == seq(|tail|, i requires 0 <= i < |tail| => " " + tail[i]);
    }
  }

  /** Python's `key in s` on strings: `key` occurs in `s` at some position. */
  ghost predicate Occurs(key: string, s: string)
  {
    exists i | 0 <= i <= |s| :: key <= s[i..]
  }

  function Contains(s: string, key: string): (b: bool)
    ensures b <==> Occurs(key, s)
  {
    if key <= s then
      assert s[0..] == s;
      true
    else if s == [] then false
    else
      var b := Contains(s[1..], key);
      assert b ==> Occurs(key, s) by {
        if b {
          var i :| 0 <= i <= |s| - 1 && key <= s[1..][i..];
          assert s[1..][i..] == s[i + 1..];
        }
      }
      assert Occurs(key, s) ==> b by {
        if Occurs(key, s) {
          var i :| 0 <= i <= |s| && key <= s[i..];
          assert i != 0;
          assert s[1..][i - 1..] == s[i..];
        }
      }
      b
  }

  predicate IsDigit(ch: char)
  {
    '0' <= ch <= '9'
  }

  predicate IsDigits(s: string)
  {
    forall i | 0 <= i < |s| :: IsDigit(s[i])
  }

  function Pow10(n: nat): (p: nat)
    ensures p >= 1
  {
    if n == 0 then 1 else 10 * Pow10(n - 1)
  }

  /** `int(s)` for a string of decimal digits. */
  function DigitsValue(s: string): (v: nat)
    requires IsDigits(s)
    ensures v < Pow10(|s|)
  {
    if s == [] then 0
    else
      var d := s[0] as int - '0' as int;
      var p := Pow10(|s| - 1);
      var rest := DigitsValue(s[1..]);
      assert d * p + p <= 10 * p by {
        assert d <= 9;
        MulLe(d + 1, 10, p);
      }
      d * p + rest
  }

  lemma MulLe(a: int, b: int, p: nat)
    requires a <= b
    ensures a * p <= b * p
  {
  }

  /** Among digit strings of one length, string order is numeric order. */
  lemma {:induction false} DigitsOrder(a: string, b: string)
    requires IsDigits(a) && IsDigits(b) && |a| == |b|
    requires Less(a, b)
    ensures DigitsValue(a) < DigitsValue(b)
    decreases |a|
  {
    assert a != [] && b != [];
    var da, db := a[0] as int - '0' as int, b[0] as int - '0' as int;
    var p := Pow10(|a| - 1);
    var ra, rb := DigitsValue(a[1..]), DigitsValue(b[1..]);
    if da < db {
      LeadingDigitDecides(da, db, p, ra, rb);
    } else {
      assert a[0] == b[0];
      DigitsOrder(a[1..], b[1..]);
    }
  }

  lemma LeadingDigitDecides(da: int, db: int, p: int, ra: int, rb: int)
    requires 0 <= da < db && 0 <= ra < p && 0 <= rb
    ensures da * p + ra < db * p + rb
  {
    MulLe(da + 1, db, p);
  }
}
