/** Text helpers shared by the capture script and the NDVI pass: decimal
    rendering of naturals (Python's `f"{n}"` and `f"{n:03d}"`), suffix tests
    (`str.endswith`), and splitting and joining on a separator (`str.split`,
    `str.split(sep, 1)`, `sep.join`). */
module Text {

  datatype Option<T> = None | Some(value: T)

  predicate IsDigit(c: char) { '0' <= c <= '9' }

  predicate AllDigits(s: string) { forall i :: 0 <= i < |s| ==> IsDigit(s[i]) }

  function DigitChar(d: nat): (c: char)
    requires d < 10
    ensures IsDigit(c) && c as int - '0' as int == d
  {
    ('0' as int + d) as char
  }

  function DigitValue(c: char): (d: nat)
    requires IsDigit(c)
    ensures d < 10
  {
    c as int - '0' as int
  }

  /** The value of a string of decimal digits; leading zeros do not count. */
  function ValueOf(s: string): nat
    requires AllDigits(s)
  {
    if s == [] then 0 else 10 * ValueOf(s[..|s| - 1]) + DigitValue(s[|s| - 1])
  }

  /** Decimal rendering of `n` with no sign and no leading zero. */
  function Digits(n: nat): (s: string)
    ensures |s| >= 1 && AllDigits(s)
    ensures |s| > 1 ==> s[0] != '0'
    decreases n
  {
    if n < 10 then [DigitChar(n)] else Digits(n / 10) + [DigitChar(n % 10)]
  }

  lemma {:induction false} ValueOfDigits(n: nat)
    ensures ValueOf(Digits(n)) == n
  {
    if n >= 10 {
      var s := Digits(n);
      assert s[..|s| - 1] == Digits(n / 10);
      ValueOfDigits(n / 10);
    }
  }

  /** A natural below 1000 needs at most three digits. */
  lemma DigitsBelow1000(n: nat)
    ensures n < 1000 ==> |Digits(n)| <= 3
  {
    if 10 <= n < 1000 {
      assert |Digits(n)| == |Digits(n / 10)| + 1;
      if n / 10 >= 10 {
        assert |Digits(n / 10)| == |Digits(n / 100)| + 1;
        assert n / 100 < 10;
      }
    }
  }

  function Zeros(k: nat): (s: string)
    ensures |s| == k && AllDigits(s)
    ensures forall i :: 0 <= i < k ==> s[i] == '0'
  {
    seq(k, _ => '0')
  }

  lemma {:induction false} ZerosValue(k: nat)
    ensures ValueOf(Zeros(k)) == 0
  {
    if k > 0 {
      assert Zeros(k)[..k - 1] == Zeros(k - 1);
      ZerosValue(k - 1);
    }
  }

  lemma {:induction false} LeadingZeros(k: nat, s: string)
    requires AllDigits(s)
    ensures AllDigits(Zeros(k) + s) && ValueOf(Zeros(k) + s) == ValueOf(s)
    decreases |s|
  {
    var t := Zeros(k) + s;
    if s == [] {
      assert t == Zeros(k);
      ZerosValue(k);
    } else {
      assert t[..|t| - 1] == Zeros(k) + s[..|s| - 1];
      LeadingZeros(k, s[..|s| - 1]);
    }
  }

  /** Python's `f"{n:0{width}d}"` for a natural `n`: the decimal digits of `n`,
      left-padded with zeros to at least `width` characters. */
  function ZeroPad(n: nat, width: nat): (s: string)
    ensures |s| == if |Digits(n)| < width then width else |Digits(n)|
    ensures AllDigits(s) && ValueOf(s) == n
  {
    var d := Digits(n);
    ValueOfDigits(n);
    if |d| < width then LeadingZeros(width - |d|, d); Zeros(width - |d|) + d else d
  }

  /** Python's `s.endswith(suffix)`. */
  predicate EndsWith(s: string, suffix: string)
  {
    |suffix| <= |s| && s[|s| - |suffix|..] == suffix
  }

  /** `sep` occurs in `s` starting at index `k`. */
  predicate OccursAt(s: string, sep: string, k: nat)
  {
    k + |sep| <= |s| && s[k..k + |sep|] == sep
  }

  lemma OccursShift(s: string, sep: string)
    requires |s| >= 1
    ensures forall j: nat :: 1 <= j ==> (OccursAt(s, sep, j) <==> OccursAt(s[1..], sep, j - 1))
  {
    forall j: nat | 1 <= j
      ensures OccursAt(s, sep, j) <==> OccursAt(s[1..], sep, j - 1)
    {
      if j + |sep| <= |s| {
        assert s[1..][j - 1..j - 1 + |sep|] == s[j..j + |sep|];
      }
    }
  }

  /** The index of the leftmost occurrence of `sep` in `s`, or `|s|` when
      there is none (Python's `s.find(sep)`, with `|s|` for -1). */
  function Find(s: string, sep: string): (k: nat)
    requires sep != []
    ensures k <= |s|
    ensures k < |s| ==> OccursAt(s, sep, k)
    ensures forall j: nat :: j < k ==> !OccursAt(s, sep, j)
    decreases |s|
  {
    if |s| < |sep| then |s|
    else if s[..|sep|] == sep then 0
    else OccursShift(s, sep); 1 + Find(s[1..], sep)
  }

  /** Python's `sep.join(parts)`. */
  function Join(parts: seq<string>, sep: string): string
  {
    if |parts| == 0 then ""
    else if |parts| == 1 then parts[0]
    else parts[0] + sep + Join(parts[1..], sep)
  }

  /** Python's `s.split(sep)`: cut at every leftmost non-overlapping occurrence. */
  function Split(s: string, sep: string): (parts: seq<string>)
    requires sep != []
    ensures |parts| >= 1
    ensures Join(parts, sep) == s
    ensures forall i: nat, j: nat :: i < |parts| ==> !OccursAt(parts[i], sep, j)
    decreases |s|
  {
    var k := Find(s, sep);
    if k == |s| then
      assert forall j: nat :: OccursAt(s, sep, j) ==> j < k;
      [s]
    else
      var rest := Split(s[k + |sep|..], sep);
      var head := s[..k];
      assert s == head + sep + s[k + |sep|..];
      assert ([head] + rest)[1..] == rest;
      PrefixOccurs(s, k, sep);
      assert forall j: nat :: !OccursAt(head, sep, j);
      assert forall i: nat :: 1 <= i < |rest| + 1 ==> ([head] + rest)[i] == rest[i - 1];
      [head] + rest
  }

  /** An occurrence inside a prefix is an occurrence in the whole string. */
  lemma PrefixOccurs(s: string, k: nat, sep: string)
    requires k <= |s|
    ensures forall j: nat :: OccursAt(s[..k], sep, j) ==> OccursAt(s, sep, j)
  {
    forall j: nat | OccursAt(s[..k], sep, j)
      ensures OccursAt(s, sep, j)
    {
      assert s[..k][j..j + |sep|] == s[j..j + |sep|];
    }
  }

  /** Python's `s.split(sep, 1)`: at most one cut, at the first occurrence. */
  function SplitOnce(s: string, sep: string): (parts: seq<string>)
    requires sep != []
    ensures 1 <= |parts| <= 2
    ensures Join(parts, sep) == s
    ensures |parts| == 1 <==> forall j: nat :: !OccursAt(s, sep, j)
    ensures |parts| == 2 ==>
              OccursAt(s, sep, |parts[0]|) &&
              forall j: nat :: j < |parts[0]| ==> !OccursAt(s, sep, j)
  {
    var k := Find(s, sep);
    if k == |s| then [s]
    else
      assert s == s[..k] + sep + s[k + |sep|..];
      [s[..k], s[k + |sep|..]]
  }

  lemma FindAbsent(s: string, sep: string)
    requires sep != [] && sep[0] !in s
    ensures Find(s, sep) == |s|
  {
  }

  lemma FindFirst(f: string, sep: string, rest: string)
    requires sep != [] && sep[0] !in f
    ensures Find(f + sep + rest, sep) == |f|
  {
    var s := f + sep + rest;
    assert s[|f|..|f| + |sep|] == sep;
    assert OccursAt(s, sep, |f|);
  }

  /** Splitting at a first occurrence found at `k`. */
  lemma SplitAt(s: string, sep: string, k: nat)
    requires sep != [] && k < |s| && Find(s, sep) == k
    ensures Split(s, sep) == [s[..k]] + Split(s[k + |sep|..], sep)
  {
  }

  /** Splitting undoes joining when no part contains the separator's first
      character. */
  lemma {:induction false} SplitJoin(parts: seq<string>, sep: string)
    requires sep != [] && |parts| >= 1
    requires forall i :: 0 <= i < |parts| ==> sep[0] !in parts[i]
    ensures Split(Join(parts, sep), sep) == parts
  {
    if |parts| == 1 {
      FindAbsent(parts[0], sep);
    } else {
      var head, tail := parts[0], parts[1..];
      var rest := Join(tail, sep);
      var s := head + sep + rest;
      assert Join(parts, sep) == s;
      FindFirst(head, sep, rest);
      assert s[..|head|] == head;
      assert s[|head| + |sep|..] == rest;
      SplitAt(s, sep, |head|);
      SplitJoin(tail, sep);
      assert parts == [head] + tail;
    }
  }

  /** A string of digits holds no character other than a digit. */
  lemma NoNonDigit(s: string, c: char)
    requires AllDigits(s) && !IsDigit(c)
    ensures c !in s
  {
  }
}
