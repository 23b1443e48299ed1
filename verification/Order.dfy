/** Go's string order, sorted listings without duplicates, and decimal numerals. */
module Order {
  import opened GoTypes

  /** `a < b` on Go strings: byte by byte. */
  predicate Less(a: bytes, b: bytes) {
    if b == [] then false
    else if a == [] then true
    else if a[0] != b[0] then a[0] < b[0]
    else Less(a[1..], b[1..])
  }

  lemma {:induction false} LessIrreflexive(a: bytes)
    ensures !Less(a, a)
  {
    if a != [] {
      LessIrreflexive(a[1..]);
    }
  }

  lemma {:induction false} LessTransitive(a: bytes, b: bytes, c: bytes)
    requires Less(a, b) && Less(b, c)
    ensures Less(a, c)
    decreases |b|
  {
    if a != [] && a[0] == b[0] == c[0] {
      LessTransitive(a[1..], b[1..], c[1..]);
    }
  }

  lemma {:induction false} LessTotal(a: bytes, b: bytes)
    ensures Less(a, b) || a == b || Less(b, a)
  {
    if a != [] && b != [] && a[0] == b[0] {
      LessTotal(a[1..], b[1..]);
      if a[1..] == b[1..] {
        assert a == [a[0]] + a[1..] && b == [b[0]] + b[1..];
      }
    }
  }

  ghost predicate Ascending(xs: seq<bytes>) {
    forall i, j :: 0 <= i < j < |xs| ==> Less(xs[i], xs[j])
  }

  /** The sorted listing of a set: each element once, in ascending order. */
  ghost predicate IsListing(xs: seq<bytes>, s: set<bytes>) {
    Ascending(xs) && forall x :: x in xs <==> x in s
  }

  lemma ListingEmpty(xs: seq<bytes>, s: set<bytes>)
    requires IsListing(xs, s)
    ensures xs == [] <==> s == {}
  {
    if xs != [] {
      assert xs[0] in s;
    }
  }

  /** A set has only one sorted listing, so the order in which its elements were collected does not show. */
  lemma {:induction false} ListingUnique(xs: seq<bytes>, ys: seq<bytes>, s: set<bytes>)
    requires IsListing(xs, s) && IsListing(ys, s)
    ensures xs == ys
    decreases |xs|
  {
    ListingEmpty(xs, s);
    ListingEmpty(ys, s);
    if xs != [] {
      assert xs[0] in ys;
      assert ys[0] in xs;
      if xs[0] != ys[0] {
        assert Less(xs[0], ys[0]) && Less(ys[0], xs[0]);
        LessTransitive(xs[0], ys[0], xs[0]);
        LessIrreflexive(xs[0]);
      }
      TailListing(xs, s);
      TailListing(ys, s);
      ListingUnique(xs[1..], ys[1..], s - {xs[0]});
    }
  }

  lemma TailListing(xs: seq<bytes>, s: set<bytes>)
    requires IsListing(xs, s) && xs != []
    ensures IsListing(xs[1..], s - {xs[0]})
  {
    forall x
      ensures x in xs[1..] <==> x in s - {xs[0]}
    {
      if x in xs[1..] {
        var i :| 0 <= i < |xs| - 1 && xs[1..][i] == x;
        assert xs[i + 1] == x && Less(xs[0], xs[i + 1]);
        LessIrreflexive(x);
      }
      if x in s - {xs[0]} {
        assert x in xs;
      }
    }
  }

  /** Inserts `x` into a listing. */
  function Insert(xs: seq<bytes>, x: bytes): seq<bytes> {
    if xs == [] then [x]
    else if x == xs[0] then xs
    else if Less(x, xs[0]) then [x] + xs
    else [xs[0]] + Insert(xs[1..], x)
  }

  lemma {:induction false} InsertLists(xs: seq<bytes>, x: bytes, s: set<bytes>)
    requires IsListing(xs, s)
    ensures IsListing(Insert(xs, x), s + {x})
    decreases |xs|
  {
    if xs == [] {
    } else if x == xs[0] {
      assert x in xs;
    } else if Less(x, xs[0]) {
      forall j | 0 <= j < |xs|
        ensures Less(x, xs[j])
      {
        if j > 0 {
          LessTransitive(x, xs[0], xs[j]);
        }
      }
    } else {
      LessTotal(x, xs[0]);
      TailListing(xs, s);
      InsertLists(xs[1..], x, s - {xs[0]});
      var rest := Insert(xs[1..], x);
      forall j | 0 <= j < |rest|
        ensures Less(xs[0], rest[j])
      {
        assert rest[j] in rest;
        if rest[j] != x {
          assert rest[j] in xs[1..];
        }
      }
      assert xs[0] in xs;
    }
  }

  lemma {:induction false} InsertGrows(xs: seq<bytes>, x: bytes)
    requires x !in xs
    ensures |Insert(xs, x)| == |xs| + 1
  {
    if xs != [] && !Less(x, xs[0]) {
      assert xs[0] in xs;
      InsertGrows(xs[1..], x);
    }
  }

  function Elements(xs: seq<bytes>): set<bytes> {
    set x | x in xs
  }

  lemma EmptyListing()
    ensures IsListing([], {})
  {
  }

  lemma NewElement(xs: seq<bytes>, i: nat, ys: seq<bytes>)
    requires Distinct(xs) && i < |xs| && IsListing(ys, Elements(xs[..i]))
    ensures xs[i] !in ys && Elements(xs[..i + 1]) == Elements(xs[..i]) + {xs[i]}
  {
    hide Ascending;
    assert xs[..i + 1] == xs[..i] + [xs[i]];
    assert xs[i] !in xs[..i];
  }

  predicate Distinct(xs: seq<bytes>) {
    forall i, j :: 0 <= i < j < |xs| ==> xs[i] != xs[j]
  }

  /** sort.Strings on a slice without duplicates. */
  method SortStrings(xs: seq<bytes>) returns (ys: seq<bytes>)
    requires Distinct(xs)
    ensures IsListing(ys, Elements(xs)) && |ys| == |xs|
  {
    hide IsListing, Insert;
    EmptyListing();
    assert Elements(xs[..0]) == {};
    ys := [];
    for i := 0 to |xs|
      invariant IsListing(ys, Elements(xs[..i])) && |ys| == i
    {
      NewElement(xs, i, ys);
      InsertLists(ys, xs[i], Elements(xs[..i]));
      InsertGrows(ys, xs[i]);
      ys := Insert(ys, xs[i]);
    }
    assert xs[..|xs|] == xs;
  }

  /** Collects the keys of a Go map into a slice, in whatever order the map gives them. */
  method CollectKeys(keys: set<bytes>) returns (xs: seq<bytes>)
    ensures Distinct(xs) && Elements(xs) == keys
  {
    xs := [];
    var rest := keys;
    while rest != {}
      invariant rest <= keys && Elements(xs) == keys - rest && Distinct(xs)
      decreases |rest|
    {
      var x :| x in rest;
      OneMoreKey(xs, x);
      xs := xs + [x];
      rest := rest - {x};
    }
  }

  lemma OneMoreKey(xs: seq<bytes>, x: bytes)
    requires Distinct(xs) && x !in Elements(xs)
    ensures Distinct(xs + [x]) && Elements(xs + [x]) == Elements(xs) + {x}
  {
    var ys := xs + [x];
    forall i, j | 0 <= i < j < |ys|
      ensures ys[i] != ys[j]
    {
      assert ys[i] in xs;
    }
  }

  lemma {:induction false} ListingExists(s: set<bytes>)
    ensures exists xs :: IsListing(xs, s)
    decreases |s|
  {
    if s == {} {
      assert IsListing([], s);
    } else {
      var x :| x in s;
      ListingExists(s - {x});
      var rest :| IsListing(rest, s - {x});
      InsertLists(rest, x, s - {x});
      assert s - {x} + {x} == s;
    }
  }

  /** The sorted listing, as a function of the set. */
  ghost function Listing(s: set<bytes>): (xs: seq<bytes>)
    ensures IsListing(xs, s)
  {
    ListingExists(s);
    var xs :| IsListing(xs, s);
    xs
  }

  lemma {:induction false} ListingLength(xs: seq<bytes>, s: set<bytes>)
    requires IsListing(xs, s)
    ensures |xs| == |s|
    decreases |xs|
  {
    ListingEmpty(xs, s);
    if xs != [] {
      TailListing(xs, s);
      ListingLength(xs[1..], s - {xs[0]});
      assert xs[0] in xs;
    }
  }

  // ---------- Decimal numerals ----------

  function Digits(n: nat): (b: bytes)
    ensures |b| > 0
  {
    if n < 10 then [48 + n] else Digits(n / 10) + [48 + n % 10]
  }

  /** fmt's %d. */
  function Decimal(n: int): bytes {
    if n < 0 then [45] + Digits(-n) else Digits(n)
  }

  /** Reads digits from the left, with `sofar` for those before; None for anything else. */
  function ReadDigits(b: bytes, sofar: nat): Option<nat> {
    if b == [] then Some(sofar)
    else if 48 <= b[0] <= 57 then ReadDigits(b[1..], 10 * sofar + (b[0] - 48))
    else None
  }

  /** A decimal reader: at least one digit, perhaps behind a minus sign. */
  function ReadDecimal(b: bytes): Option<int> {
    if b == [] || b == [45] then None
    else if b[0] == 45 then
      var n: int :- ReadDigits(b[1..], 0);
      Some(-n)
    else
      var n :- ReadDigits(b, 0);
      Some(n)
  }

  lemma {:induction false} ReadDigitsAppend(b: bytes, d: byte, sofar: nat)
    requires ReadDigits(b, sofar).Some? && 48 <= d <= 57
    ensures ReadDigits(b + [d], sofar) == Some(10 * ReadDigits(b, sofar).value + (d - 48))
    decreases |b|
  {
    if b == [] {
      assert b + [d] == [d] && [d][1..] == [];
    } else {
      assert (b + [d])[1..] == b[1..] + [d];
      ReadDigitsAppend(b[1..], d, 10 * sofar + (b[0] - 48));
    }
  }

  lemma {:induction false} DigitsRead(n: nat)
    ensures ReadDigits(Digits(n), 0) == Some(n) && 48 <= Digits(n)[0] <= 57
  {
    if n < 10 {
      assert Digits(n)[1..] == [];
    } else {
      DigitsRead(n / 10);
      ReadDigitsAppend(Digits(n / 10), 48 + n % 10, 0);
    }
  }

  /** A decimal reader gets every number back, negative ones too. */
  lemma DecimalRead(n: int)
    ensures ReadDecimal(Decimal(n)) == Some(n)
  {
    hide Digits, ReadDigits;
    if n < 0 {
      DigitsRead(-n);
      assert Decimal(n)[1..] == Digits(-n);
    } else {
      DigitsRead(n);
    }
  }

  lemma {:induction false} LessWithEnds(a: bytes, b: bytes, x: bytes, y: bytes)
    requires |a| == |b|
    ensures Less(a + x, b + y) <==> Less(a, b) || (a == b && Less(x, y))
    decreases |a|
  {
    if a == [] {
      assert a + x == x && b + y == y;
    } else {
      assert (a + x)[1..] == a[1..] + x && (b + y)[1..] == b[1..] + y;
      LessWithEnds(a[1..], b[1..], x, y);
      assert a == [a[0]] + a[1..] && b == [b[0]] + b[1..];
    }
  }

  lemma {:induction false} DigitsInjective(m: nat, n: nat)
    requires Digits(m) == Digits(n)
    ensures m == n
    decreases m
  {
    if m >= 10 && n >= 10 {
      assert Digits(m)[..|Digits(m)| - 1] == Digits(m / 10) && Digits(n)[..|Digits(n)| - 1] == Digits(n / 10);
      assert Digits(m)[|Digits(m)| - 1] == 48 + m % 10 && Digits(n)[|Digits(n)| - 1] == 48 + n % 10;
      DigitsInjective(m / 10, n / 10);
    }
  }

  /** Numerals of equal length sort as their numbers do. */
  lemma {:induction false} DigitsSortNumerically(m: nat, n: nat)
    requires |Digits(m)| == |Digits(n)|
    ensures Less(Digits(m), Digits(n)) <==> m < n
    decreases m
  {
    if m >= 10 && n >= 10 {
      LessWithEnds(Digits(m / 10), Digits(n / 10), [48 + m % 10], [48 + n % 10]);
      DigitsSortNumerically(m / 10, n / 10);
      if Digits(m / 10) == Digits(n / 10) {
        DigitsInjective(m / 10, n / 10);
      }
    }
  }

  lemma {:induction false} DigitBytes(n: nat)
    ensures forall i :: 0 <= i < |Digits(n)| ==> 48 <= Digits(n)[i] < 58
  {
    if n >= 10 {
      DigitBytes(n / 10);
    }
  }

  /** A greater number has no fewer digits. */
  lemma {:induction false} DigitsGrow(m: nat, n: nat)
    requires m <= n
    ensures |Digits(m)| <= |Digits(n)|
    decreases m
  {
    if m >= 10 {
      DigitsGrow(m / 10, n / 10);
    }
  }

  /** The number made of the first `k` digits of `n`: the last digits go until `k` are left. */
  function Leading(n: nat, k: nat): nat
    requires 0 < k <= |Digits(n)|
  {
    if k == |Digits(n)| then n else Leading(n / 10, k)
  }

  /** Its numeral is the first `k` digits. */
  lemma {:induction false} LeadingDigits(n: nat, k: nat)
    requires 0 < k <= |Digits(n)|
    ensures Digits(Leading(n, k)) == Digits(n)[..k]
    decreases n
  {
    if k < |Digits(n)| {
      LeadingDigits(n / 10, k);
      assert Digits(n)[..k] == Digits(n / 10)[..k];
    } else {
      assert Digits(n)[..k] == Digits(n);
    }
  }
}
