/** The numbered entry names of an archive-timestamp chain
    (META-INF/timestampNNN.tst, META-INF/ASiCArchiveManifestNNN.xml),
    the "%03zu" counter they are formatted with, and the first unused
    number that the linear probes of signing settle on. */
module Counter {
  import opened AsicTypes

  predicate IsDigits(s: string)
  {
    forall k :: 0 <= k < |s| ==> '0' <= s[k] <= '9'
  }

  function Digit(d: nat): (c: char)
    requires d < 10
    ensures '0' <= c <= '9' && c as int - '0' as int == d
  {
    "0123456789"[d]
  }

  /** The decimal digits of n, without leading zeros. */
  function Decimal(n: nat): (s: string)
    ensures |s| >= 1 && IsDigits(s)
    ensures n < 10 <==> |s| == 1
    ensures |s| <= 3 <==> n < 1000
    decreases n
  {
    if n < 10 then [Digit(n)] else Decimal(n / 10) + [Digit(n % 10)]
  }

  /** The number a string of decimal digits denotes. */
  function Value(s: string): nat
    requires IsDigits(s)
  {
    if s == [] then 0
    else Value(s[..|s| - 1]) * 10 + (s[|s| - 1] as int - '0' as int)
  }

  lemma {:induction false} DecimalValue(n: nat)
    ensures Value(Decimal(n)) == n
    decreases n
  {
    if n >= 10 {
      DecimalValue(n / 10);
      var d := Decimal(n);
      assert d[..|d| - 1] == Decimal(n / 10);
    }
  }

  /** A leading zero does not change the value. */
  lemma {:induction false} LeadingZero(s: string)
    requires IsDigits(s)
    ensures IsDigits("0" + s) && Value("0" + s) == Value(s)
    decreases |s|
  {
    var t := "0" + s;
    assert IsDigits(t) by {
      forall k | 0 <= k < |t| ensures '0' <= t[k] <= '9' {
        if k > 0 { assert t[k] == s[k - 1]; }
      }
    }
    if s != [] {
      var init := s[..|s| - 1];
      assert IsDigits(init) by {
        forall k | 0 <= k < |init| ensures '0' <= init[k] <= '9' { assert init[k] == s[k]; }
      }
      LeadingZero(init);
      assert t[..|t| - 1] == "0" + init;
    }
  }

  /** printf's "%03zu": at least three decimal digits, padded with zeros. */
  function Pad3(n: nat): (s: string)
    ensures |s| >= 3 && IsDigits(s) && Value(s) == n
    ensures n < 1000 ==> |s| == 3
  {
    var d := Decimal(n);
    DecimalValue(n);
    if |d| >= 3 then d
    else if |d| == 2 then
      LeadingZero(d);
      "0" + d
    else
      LeadingZero(d);
      LeadingZero("0" + d);
      "0" + ("0" + d)
  }

  /** From 1000 on, "%03zu" adds no padding: the plain decimal digits. */
  lemma Pad3Wide(n: nat)
    requires n >= 1000
    ensures Pad3(n) == Decimal(n)
  {
  }

  /** Distinct counters give distinct strings. */
  lemma Pad3Injective(a: nat, b: nat)
    requires Pad3(a) == Pad3(b)
    ensures a == b
  {
  }

  /** The two numbered families of chain entries. */
  datatype Series = Timestamps | Manifests

  const TimestampPrefix: string := "META-INF/timestamp"
  const ManifestPrefix: string := "META-INF/ASiCArchiveManifest"

  function Prefix(s: Series): string
  {
    match s
    case Timestamps => TimestampPrefix
    case Manifests => ManifestPrefix
  }

  function Suffix(s: Series): string
  {
    match s
    case Timestamps => ".tst"
    case Manifests => ".xml"
  }

  /** "META-INF/timestamp%03zu.tst" or "META-INF/ASiCArchiveManifest%03zu.xml". */
  function Numbered(s: Series, n: nat): string
  {
    Prefix(s) + Pad3(n) + Suffix(s)
  }

  lemma NumberedAt(s: Series, n: nat)
    ensures |Numbered(s, n)| == |Prefix(s)| + |Pad3(n)| + 4
    ensures Numbered(s, n)[..|Prefix(s)|] == Prefix(s)
    ensures Numbered(s, n)[|Prefix(s)|..|Prefix(s)| + |Pad3(n)|] == Pad3(n)
    ensures '0' <= Numbered(s, n)[|Prefix(s)|] <= '9'
  {
    var p, d, q := Prefix(s), Pad3(n), Suffix(s);
    assert (p + d + q)[|p|] == d[0];
    assert (p + d + q)[..|p|] == p;
    assert (p + d + q)[|p|..|p| + |d|] == d;
  }

  /** Within one family, the counter is recovered from the name. */
  lemma NumberedInjective(s: Series, a: nat, b: nat)
    requires Numbered(s, a) == Numbered(s, b)
    ensures a == b
  {
    NumberedAt(s, a);
    NumberedAt(s, b);
    Pad3Injective(a, b);
  }

  /** No timestamp name is a manifest name. */
  lemma SeriesDisjoint(a: nat, b: nat)
    ensures Numbered(Timestamps, a) != Numbered(Manifests, b)
  {
    NumberedAt(Timestamps, a);
    NumberedAt(Manifests, b);
    assert Numbered(Timestamps, a)[..9][..] == "META-INF/";
    assert Numbered(Timestamps, a)[9] == 't';
    assert Numbered(Manifests, b)[9] == 'A';
  }

  /** The unnumbered head manifest name is no numbered name: it has a '.'
      where a manifest name has its first digit, and no timestamp name
      begins like it. */
  lemma HeadNotNumbered(s: Series, n: nat)
    ensures Numbered(s, n) != HeadManifest
  {
    NumberedAt(s, n);
    if s == Manifests {
      assert |HeadManifest| == 32 < |Numbered(s, n)|;
    } else {
      assert Numbered(s, n)[9] == TimestampPrefix[9] == 't';
      assert HeadManifest[9] == 'A';
    }
  }

  /** Likewise for the first signature's token name. */
  lemma TimestampEntryNotNumbered(s: Series, n: nat)
    ensures Numbered(s, n) != TimestampEntry
  {
    NumberedAt(s, n);
    if s == Timestamps {
      assert TimestampEntry[18] == '.';
    } else {
      assert Numbered(s, n)[9] == 'A';
      assert TimestampEntry[9] == 't';
    }
  }

  /** If the numbers 1..n of a family are all taken, there are at least n names. */
  lemma {:induction false} TakenBound(names: set<string>, s: Series, n: nat)
    requires forall j :: 1 <= j <= n ==> Numbered(s, j) in names
    ensures n <= |names|
    decreases n
  {
    if n > 0 {
      var x := Numbered(s, n);
      var rest := names - {x};
      forall j | 1 <= j <= n - 1 ensures Numbered(s, j) in rest {
        if Numbered(s, j) == x { NumberedInjective(s, j, n); }
      }
      TakenBound(rest, s, n - 1);
    }
  }

  /** The first number from i on whose name is not taken, given that every
      number below i is taken: the result of the linear probes of sign. */
  function FreeIndex(names: set<string>, s: Series, i: nat): (n: nat)
    requires 1 <= i
    requires forall j :: 1 <= j < i ==> Numbered(s, j) in names
    ensures i <= n && Numbered(s, n) !in names
    ensures forall j :: 1 <= j < n ==> Numbered(s, j) in names
    decreases |names| + 1 - i
  {
    if Numbered(s, i) !in names then i
    else
      TakenBound(names, s, i);
      FreeIndex(names, s, i + 1)
  }
}
