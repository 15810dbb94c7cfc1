/**
 * Strings as the workers use them: Python's ordering of `str` (used by
 * `sorted(os.listdir(...))`), `str.endswith`, `str.isdigit` with `int(...)`,
 * and the `frame_%04d.jpg` names ffmpeg writes.
 */
module Text {
  import opened Wrappers

  /** Python's `a < b` on `str`: lexicographic by code point, a proper prefix first. */
  predicate Less(a: string, b: string)
    decreases |a|
  {
    if a == [] then b != []
    else b != [] && (a[0] < b[0] || (a[0] == b[0] && Less(a[1..], b[1..])))
  }

  lemma {:induction false} LessIrreflexive(a: string)
    ensures !Less(a, a)
    decreases |a|
  {
    if a != [] { LessIrreflexive(a[1..]); }
  }

  lemma {:induction false} LessAsymmetric(a: string, b: string)
    requires Less(a, b)
    ensures !Less(b, a)
    decreases |a|
  {
    if a != [] && b != [] && a[0] == b[0] { LessAsymmetric(a[1..], b[1..]); }
  }

  lemma {:induction false} LessTransitive(a: string, b: string, c: string)
    requires Less(a, b) && Less(b, c)
    ensures Less(a, c)
    decreases |a|
  {
    if a != [] && a[0] == b[0] && b[0] == c[0] { LessTransitive(a[1..], b[1..], c[1..]); }
  }

  lemma {:induction false} LessTotal(a: string, b: string)
    requires a != b
    ensures Less(a, b) || Less(b, a)
    decreases |a|
  {
    if a != [] && b != [] && a[0] == b[0] {
      assert a == [a[0]] + a[1..] && b == [b[0]] + b[1..];
      LessTotal(a[1..], b[1..]);
    }
  }

  /** Strings sharing a prefix compare as their remainders do. */
  lemma {:induction false} LessCommonPrefix(p: string, a: string, b: string)
    ensures Less(p + a, p + b) == Less(a, b)
    decreases |p|
  {
    if p != [] {
      assert (p + a)[0] == p[0] == (p + b)[0];
      assert (p + a)[1..] == p[1..] + a && (p + b)[1..] == p[1..] + b;
      LessCommonPrefix(p[1..], a, b);
      assert Less(p + a, p + b) == Less(p[1..] + a, p[1..] + b);
    } else {
      assert p + a == a && p + b == b;
    }
  }

  predicate IsLeast(m: string, s: set<string>)
  {
    m in s && forall x :: x in s && x != m ==> Less(m, x)
  }

  lemma {:induction false} LeastExists(s: set<string>)
    requires s != {}
    ensures exists m :: IsLeast(m, s)
    decreases |s|
  {
    var x :| x in s;
    if s - {x} == {} {
      assert s == {x};
      assert IsLeast(x, s);
    } else {
      LeastExists(s - {x});
      var m :| IsLeast(m, s - {x});
      LessTotal(x, m);
      if Less(x, m) {
        forall y | y in s && y != x ensures Less(x, y) {
          if y != m { LessTransitive(x, m, y); }
        }
        assert IsLeast(x, s);
      } else {
        assert IsLeast(m, s);
      }
    }
  }

  predicate StrictlySorted(r: seq<string>)
  {
    forall i, j :: 0 <= i < j < |r| ==> Less(r[i], r[j])
  }

  /** Names in a sorted list of names are distinct. */
  lemma SortedDistinct(frames: seq<string>, i: nat, j: nat)
    requires StrictlySorted(frames) && i < j < |frames|
    ensures frames[i] != frames[j]
  {
    if frames[i] == frames[j] {
      LessIrreflexive(frames[i]);
    }
  }

  /** A name of a sorted list occurs nowhere after its own position. */
  lemma LaterNamesDiffer(frames: seq<string>, i: nat, k: nat)
    requires StrictlySorted(frames) && i < k <= |frames|
    ensures forall j :: k <= j < |frames| ==> frames[j] != frames[i]
    ensures frames[i] !in frames[k..]
  {
    forall j | k <= j < |frames| ensures frames[j] != frames[i] {
      SortedDistinct(frames, i, j);
    }
  }

  /** Python's `sorted(names)`: the names of the set, each once, in ascending order. */
  function SortedSet(s: set<string>): (r: seq<string>)
    ensures |r| == |s|
    ensures forall x :: x in r <==> x in s
    ensures StrictlySorted(r)
    decreases |s|
  {
    if s == {} then []
    else
      LeastExists(s);
      LeastUnique(s);
      var m :| IsLeast(m, s);
      var rest := SortedSet(s - {m});
      LeastFirst(m, s, rest);
      [m] + rest
  }

  lemma LeastUnique(s: set<string>)
    ensures forall m, n :: IsLeast(m, s) && IsLeast(n, s) ==> m == n
  {
    forall m, n | IsLeast(m, s) && IsLeast(n, s) ensures m == n {
      if m != n { LessAsymmetric(m, n); }
    }
  }

  /** The least name, put before a sorted list of the others, keeps the list sorted. */
  lemma LeastFirst(m: string, s: set<string>, rest: seq<string>)
    requires IsLeast(m, s) && StrictlySorted(rest)
    requires forall x :: x in rest <==> x in s - {m}
    ensures StrictlySorted([m] + rest)
  {
    forall j | 0 <= j < |rest| ensures Less(m, rest[j]) {
      assert rest[j] in s - {m};
    }
  }

  /** Python's `s.endswith(suffix)`. */
  predicate EndsWith(s: string, suffix: string)
  {
    |suffix| <= |s| && s[|s| - |suffix|..] == suffix
  }

  predicate IsDigit(c: char) { '0' <= c <= '9' }

  /** Python's `s.isdigit()`, restricted to the ASCII digits: false on "". */
  predicate IsDigits(s: string)
  {
    |s| > 0 && forall i :: 0 <= i < |s| ==> IsDigit(s[i])
  }

  /** Python's `int(s)` on a string of ASCII digits. */
  function DigitsValue(s: string): (n: nat)
    requires forall i :: 0 <= i < |s| ==> IsDigit(s[i])
    decreases |s|
  {
    if s == [] then 0
    else
      assert IsDigit(s[|s| - 1]);
      DigitsValue(s[..|s| - 1]) * 10 + (s[|s| - 1] as int - '0' as int)
  }

  /** Python's `str(n)` for a natural number. */
  function Decimal(n: nat): (s: string)
    ensures IsDigits(s)
    ensures |s| == 1 <==> n < 10
    decreases n
  {
    if n < 10 then [('0' as int + n) as char]
    else Decimal(n / 10) + [('0' as int + n % 10) as char]
  }

  /** `int(str(n)) == n`. */
  lemma {:induction false} DecimalRoundTrip(n: nat)
    ensures DigitsValue(Decimal(n)) == n
    decreases n
  {
    var s := Decimal(n);
    if n >= 10 {
      DecimalRoundTrip(n / 10);
      assert s[..|s| - 1] == Decimal(n / 10);
    }
  }

  /** The result of `int(text)` when `text.isdigit()`, otherwise nothing. */
  function ParseDigits(text: string): (r: Option<nat>)
    ensures r.Some? <==> IsDigits(text)
  {
    if IsDigits(text) then Some(DigitsValue(text)) else None
  }

  lemma ParseDecimal(n: nat)
    ensures ParseDigits(Decimal(n)) == Some(n)
  {
    DecimalRoundTrip(n);
  }

  /** A run of zeros is worth nothing. */
  lemma {:induction false} ZerosValue(z: string)
    requires forall i :: 0 <= i < |z| ==> z[i] == '0'
    ensures DigitsValue(z) == 0
    decreases |z|
  {
    if z != [] {
      ZerosValue(z[..|z| - 1]);
    }
  }

  /** Leading zeros do not change `int(s)`. */
  lemma {:induction false} LeadingZerosValue(z: string, d: string)
    requires forall i :: 0 <= i < |z| ==> z[i] == '0'
    requires forall i :: 0 <= i < |d| ==> IsDigit(d[i])
    ensures forall i :: 0 <= i < |z + d| ==> IsDigit((z + d)[i])
    ensures DigitsValue(z + d) == DigitsValue(d)
    decreases |d|
  {
    var s := z + d;
    assert forall i :: 0 <= i < |s| ==> IsDigit(s[i]) by {
      forall i | 0 <= i < |s| ensures IsDigit(s[i]) {
        if i < |z| { assert s[i] == z[i]; } else { assert s[i] == d[i - |z|]; }
      }
    }
    if d == [] {
      assert s == z;
      ZerosValue(z);
    } else {
      assert s[..|s| - 1] == z + d[..|d| - 1];
      LeadingZerosValue(z, d[..|d| - 1]);
    }
  }

  /**
   * `"frame_%04d.jpg" % n`: the index zero-padded to at least four digits,
   * between the prefix `frame_` and the suffix `.jpg`.
   */
  function FrameName(n: nat): (s: string)
    ensures |s| >= 14 && s[..6] == "frame_" && EndsWith(s, ".jpg")
    ensures IsDigits(s[6..|s| - 4])
  {
    var d := Decimal(n);
    var padded := if |d| < 4 then seq(4 - |d|, _ => '0') + d else d;
    assert padded == (if |d| < 4 then seq(4 - |d|, _ => '0') else []) + d;
    LeadingZerosValue(if |d| < 4 then seq(4 - |d|, _ => '0') else [], d);
    var s := "frame_" + padded + ".jpg";
    assert s[6..|s| - 4] == padded;
    s
  }

  /** The padded digits of `FrameName(n)` read back as `n`. */
  lemma FrameNameIndex(n: nat)
    ensures var s := FrameName(n); DigitsValue(s[6..|s| - 4]) == n
  {
    var d := Decimal(n);
    var z: string := if |d| < 4 then seq(4 - |d|, _ => '0') else [];
    var s := FrameName(n);
    assert s == "frame_" + (z + d) + ".jpg";
    assert s[6..|s| - 4] == z + d;
    LeadingZerosValue(z, d);
    DecimalRoundTrip(n);
  }

  /**
   * Lexicographic order is not numeric order once indices need five digits:
   * frame 10000 sorts before frame 1001.
   */
  lemma FrameOrderIsNotNumericPast9999()
    ensures Less(FrameName(10000), FrameName(1001)) && 1001 < 10000
  {
    FrameName10000();
    FrameName1001();
    LessCommonPrefix("frame_100", "00.jpg", "1.jpg");
  }

  lemma FrameName10000()
    ensures FrameName(10000) == "frame_100" + "00.jpg"
  {
    assert Decimal(1) == "1";
    assert Decimal(10) == "10";
    assert Decimal(100) == "100";
    assert Decimal(1000) == "1000";
    assert Decimal(10000) == "10000";
  }

  lemma FrameName1001()
    ensures FrameName(1001) == "frame_100" + "1.jpg"
  {
    assert Decimal(1) == "1";
    assert Decimal(10) == "10";
    assert Decimal(100) == "100";
    assert Decimal(1001) == "1001";
  }
}
