/** The disk cache run by one caller at a time: names, sizes, eviction (internal/cache/cache.go). */
module Cache {
  import opened GoTypes
  import opened Order

  datatype Kind = Metrics | Logs

  /** A cached batch: its kind, creation time and number of items. */
  datatype Batch = Batch(kind: Kind, createdAt: int, items: nat)

  /** A file; None is content that does not decode. */
  datatype File = File(size: nat, batch: Option<Batch>)

  type Directory = map<bytes, File>

  // ---------- Names ----------

  function Prefix(kind: Kind): bytes {
    if kind.Metrics? then Ascii("metrics_") else Ascii("logs_")
  }

  const SUFFIX: bytes := Ascii(".json")

  /** The file of a batch created at `nanos`. */
  function FileName(kind: Kind, nanos: nat): bytes {
    Prefix(kind) + (Digits(nanos) + SUFFIX)
  }

  /** A time of one digit, as an example: "metrics_7.json" and "logs_7.json". */
  lemma NamesSpelled()
    ensures FileName(Metrics, 7) == [109, 101, 116, 114, 105, 99, 115, 95, 55, 46, 106, 115, 111, 110]
    ensures FileName(Logs, 7) == [108, 111, 103, 115, 95, 55, 46, 106, 115, 111, 110]
  {
  }

  /** Within one kind, names sort as what follows the prefix does. */
  lemma SameKind(kind: Kind, m: nat, n: nat)
    ensures Less(FileName(kind, m), FileName(kind, n)) <==> Less(Digits(m) + SUFFIX, Digits(n) + SUFFIX)
  {
    var p := Prefix(kind);
    hide Ascii, Prefix, Digits, Less;
    LessWithEnds(p, p, Digits(m) + SUFFIX, Digits(n) + SUFFIX);
    LessIrreflexive(p);
  }

  /** Within one kind, names with equally many digits sort by creation time. */
  lemma NamesSortByTime(kind: Kind, m: nat, n: nat)
    requires |Digits(m)| == |Digits(n)|
    ensures Less(FileName(kind, m), FileName(kind, n)) <==> m < n
  {
    hide FileName, Ascii, Digits, Less;
    SameKind(kind, m, n);
    LessWithEnds(Digits(m), Digits(n), SUFFIX, SUFFIX);
    LessIrreflexive(SUFFIX);
    DigitsSortNumerically(m, n);
  }

  /** Across kinds the sorted order is not creation order: every log batch comes before every metrics batch. */
  lemma LogsSortBeforeMetrics(m: nat, n: nat)
    ensures Less(FileName(Logs, m), FileName(Metrics, n))
  {
    hide Digits;
    assert FileName(Logs, m)[0] == 108 && FileName(Metrics, n)[0] == 109;
  }

  /**
   * Whatever the digit counts, an earlier name of a kind sorts first exactly when its number is at most the number made
   * of as many leading digits of the later one.
   */
  lemma NamesSortByLeadingDigits(kind: Kind, m: nat, n: nat)
    requires m < n
    ensures |Digits(m)| <= |Digits(n)|
    ensures Less(FileName(kind, m), FileName(kind, n)) <==> m <= Leading(n, |Digits(m)|)
  {
    hide FileName, Ascii, Digits, Less, Leading;
    DigitsGrow(m, n);
    var k := |Digits(m)|;
    LeadingDigits(n, k);
    var lead, rest := Leading(n, k), Digits(n)[k..];
    SameKind(kind, m, n);
    assert Digits(n) + SUFFIX == Digits(lead) + (rest + SUFFIX);
    LessWithEnds(Digits(m), Digits(lead), SUFFIX, rest + SUFFIX);
    DigitsSortNumerically(m, lead);
    if Digits(m) == Digits(lead) {
      DigitsInjective(m, lead);
      DotSortsFirst(m, n);
    }
  }

  /** Behind the same leading digits there is a digit more, which is above the dot. */
  lemma DotSortsFirst(m: nat, n: nat)
    requires m < n && Digits(m) <= Digits(n)
    ensures Less(SUFFIX, Digits(n)[|Digits(m)|..] + SUFFIX)
  {
    var k := |Digits(m)|;
    hide Digits;
    DigitBytes(n);
    if k == |Digits(n)| {
      DigitsInjective(m, n);
    } else {
      assert (Digits(n)[k..] + SUFFIX)[0] == Digits(n)[k] && SUFFIX[0] == 46;
    }
  }

  /** In all other cases the later name sorts first. */
  lemma LaterNameSortsFirst(kind: Kind, m: nat, n: nat)
    requires m < n && |Digits(m)| <= |Digits(n)| && m > Leading(n, |Digits(m)|)
    ensures Less(FileName(kind, n), FileName(kind, m))
  {
    hide Less, Prefix, Digits, Leading;
    NamesSortByLeadingDigits(kind, m, n);
    LessTotal(FileName(kind, m), FileName(kind, n));
    if FileName(kind, m) == FileName(kind, n) {
      NamesInjective(kind, m, n);
    }
  }

  lemma NamesInjective(kind: Kind, m: nat, n: nat)
    requires FileName(kind, m) == FileName(kind, n)
    ensures m == n
  {
    hide Digits, Prefix;
    var p, s := |Prefix(kind)|, SUFFIX;
    assert FileName(kind, m)[p..] == Digits(m) + s && FileName(kind, n)[p..] == Digits(n) + s;
    assert Digits(m) == (Digits(m) + s)[..|Digits(m)|] && Digits(n) == (Digits(n) + s)[..|Digits(n)|];
    DigitsInjective(m, n);
  }

  /** For example, 10 sorts before 9. */
  lemma TenSortsBeforeNine(kind: Kind)
    ensures Less(FileName(kind, 10), FileName(kind, 9))
  {
    hide FileName;
    assert Digits(10) == [49, 48] && Digits(9) == [57];
    assert Digits(1) == [49] && Leading(10, 1) == 1;
    LaterNameSortsFirst(kind, 9, 10);
  }

  // ---------- Sizes ----------

  function SizeOf(dir: Directory, name: bytes): nat {
    if name in dir then dir[name].size else 0
  }

  /** The bytes of the listed files that exist. */
  function TotalOf(dir: Directory, names: seq<bytes>): nat {
    if names == [] then 0 else SizeOf(dir, names[0]) + TotalOf(dir, names[1..])
  }

  /** The bytes of a directory. */
  ghost function DirBytes(dir: Directory): nat {
    TotalOf(dir, Listing(dir.Keys))
  }

  function Existing(dir: Directory, names: seq<bytes>): seq<bytes> {
    if names == [] then []
    else (if names[0] in dir then [names[0]] else []) + Existing(dir, names[1..])
  }

  lemma {:induction false} ExistingMembers(dir: Directory, names: seq<bytes>, x: bytes)
    ensures x in Existing(dir, names) <==> x in names && x in dir
    decreases |names|
  {
    if names != [] {
      ExistingMembers(dir, names[1..], x);
      assert names == [names[0]] + names[1..];
    }
  }

  lemma {:induction false} ExistingTotal(dir: Directory, names: seq<bytes>)
    ensures TotalOf(dir, Existing(dir, names)) == TotalOf(dir, names)
    decreases |names|
  {
    if names != [] {
      ExistingTotal(dir, names[1..]);
      var rest := Existing(dir, names[1..]);
      assert ([names[0]] + rest)[1..] == rest && [] + rest == rest;
    }
  }

  /** Something listed behind the first name is greater. */
  lemma Behind(names: seq<bytes>, x: bytes)
    requires Ascending(names) && names != [] && x in names[1..]
    ensures Less(names[0], x)
  {
    var i :| 0 <= i < |names| - 1 && names[1..][i] == x;
    assert names[i + 1] == x;
  }

  lemma AscendingCons(x: bytes, rest: seq<bytes>)
    requires Ascending(rest) && forall y :: y in rest ==> Less(x, y)
    ensures Ascending([x] + rest)
  {
    var xs := [x] + rest;
    forall i, j | 0 <= i < j < |xs|
      ensures Less(xs[i], xs[j])
    {
      assert xs[j] == rest[j - 1];
      if i > 0 {
        assert xs[i] == rest[i - 1];
      }
    }
  }

  lemma {:induction false} ExistingAscend(dir: Directory, names: seq<bytes>)
    requires Ascending(names)
    ensures Ascending(Existing(dir, names))
    decreases |names|
  {
    if names != [] {
      hide Less;
      var rest := Existing(dir, names[1..]);
      assert Ascending(names[1..]);
      ExistingAscend(dir, names[1..]);
      forall y | y in rest
        ensures Less(names[0], y)
      {
        ExistingMembers(dir, names[1..], y);
        Behind(names, y);
      }
      AscendingCons(names[0], rest);
      assert [] + rest == rest;
    }
  }

  /** Any sorted list that covers the directory adds up to its size. */
  lemma CoveringTotal(dir: Directory, names: seq<bytes>)
    requires Ascending(names) && forall x :: x in dir ==> x in names
    ensures TotalOf(dir, names) == DirBytes(dir)
  {
    ExistingAscend(dir, names);
    ExistingTotal(dir, names);
    forall x
      ensures x in Existing(dir, names) <==> x in dir.Keys
    {
      ExistingMembers(dir, names, x);
    }
    ListingUnique(Existing(dir, names), Listing(dir.Keys), dir.Keys);
  }

  lemma {:induction false} TotalShrinks(dir: Directory, dir': Directory, names: seq<bytes>)
    requires forall x :: x in dir' ==> x in dir && dir'[x] == dir[x]
    ensures TotalOf(dir', names) <= TotalOf(dir, names)
  {
    if names != [] {
      TotalShrinks(dir, dir', names[1..]);
    }
  }

  /** Removing files never grows a directory. */
  lemma RemovalShrinks(dir: Directory, dir': Directory)
    requires forall x :: x in dir' ==> x in dir && dir'[x] == dir[x]
    ensures DirBytes(dir') <= DirBytes(dir)
  {
    TotalShrinks(dir, dir', Listing(dir.Keys));
    CoveringTotal(dir', Listing(dir.Keys));
  }

  lemma {:induction false} TotalUnchanged(dir: Directory, names: seq<bytes>, name: bytes, f: File)
    requires name !in names
    ensures TotalOf(dir[name := f], names) == TotalOf(dir, names)
  {
    if names != [] {
      assert names[0] in names;
      TotalUnchanged(dir, names[1..], name, f);
    }
  }

  lemma {:induction false} TotalInserted(dir: Directory, names: seq<bytes>, name: bytes)
    requires name !in names
    ensures TotalOf(dir, Insert(names, name)) == TotalOf(dir, names) + SizeOf(dir, name)
    decreases |names|
  {
    var xs := Insert(names, name);
    if names == [] {
      assert xs == [name] && xs[1..] == [];
    } else if Less(name, names[0]) {
      assert names[0] in names && xs == [name] + names && xs[1..] == names;
    } else {
      assert names[0] in names;
      assert xs == [names[0]] + Insert(names[1..], name) && xs[1..] == Insert(names[1..], name);
      TotalInserted(dir, names[1..], name);
    }
  }

  /** A new file adds exactly its size. */
  lemma NewFileAdds(dir: Directory, name: bytes, f: File)
    requires name !in dir
    ensures DirBytes(dir[name := f]) == DirBytes(dir) + f.size
  {
    var names := Listing(dir.Keys);
    InsertLists(names, name, dir.Keys);
    CoveringTotal(dir[name := f], Insert(names, name));
    TotalInserted(dir[name := f], names, name);
    TotalUnchanged(dir, names, name, f);
  }

  // ---------- Eviction ----------

  function AtLeastZero(n: int): nat {
    if n > 0 then n else 0
  }

  /** The length of the shortest prefix of `names` whose removal brings the rest within `limit`. */
  function EvictCount(dir: Directory, names: seq<bytes>, limit: int): (k: nat)
    ensures k <= |names|
    ensures k < |names| ==> TotalOf(dir, names[k..]) <= limit
    ensures forall j :: 0 <= j < k ==> TotalOf(dir, names[j..]) > limit
    decreases |names|
  {
    if names == [] || TotalOf(dir, names) <= limit then
      assert names[0..] == names;
      0
    else
      var k := EvictCount(dir, names[1..], limit);
      assert names[0..] == names;
      assert forall j :: 0 < j <= |names| ==> names[j..] == names[1..][j - 1..];
      k + 1
  }

  datatype Stats = Stats(entryCount: nat, totalBytes: nat, maxBytes: int)

  class Cache {
    const maxSizeMB: int64
    var dir: Directory

    constructor (maxSizeMB: int64, dir: Directory)
      ensures this.maxSizeMB == maxSizeMB && this.dir == dir
    {
      this.maxSizeMB := maxSizeMB;
      this.dir := dir;
    }

    /** The limit in bytes, in 64-bit arithmetic: exact below 2^43 megabytes. */
    function MaxBytes(): (limit: int64)
      ensures -0x800_0000_0000 <= maxSizeMB < 0x800_0000_0000 ==> limit == 1_048_576 * maxSizeMB
    {
      ToInt64(maxSizeMB * 1024 * 1024)
    }

    /** The names in sorted order, however the file system returned them. */
    method ListEntries() returns (names: seq<bytes>)
      ensures names == Listing(dir.Keys)
    {
      var found := CollectKeys(dir.Keys);
      names := SortStrings(found);
      ListingUnique(names, Listing(dir.Keys), dir.Keys);
    }

    method SumSizes(names: seq<bytes>) returns (total: nat)
      ensures total == TotalOf(dir, names)
    {
      total := 0;
      assert names[0..] == names;
      for i := 0 to |names|
        invariant total + TotalOf(dir, names[i..]) == TotalOf(dir, names)
      {
        assert names[i..][1..] == names[i + 1..];
        if names[i] in dir {
          total := total + dir[names[i]].size;
        }
      }
    }

    /** Removes the files first in name order until the rest fits: exactly the shortest such prefix. */
    method EvictIfNeeded()
      modifies this
      ensures var names := Listing(old(dir).Keys);
              var k := EvictCount(old(dir), names, MaxBytes());
              && dir == old(dir) - Elements(names[..k])
              && DirBytes(dir) <= AtLeastZero(MaxBytes())
      ensures 0 <= maxSizeMB < 0x800_0000_0000 ==> DirBytes(dir) <= 1_048_576 * maxSizeMB
    {
      hide EvictCount, TotalOf, DirBytes, Listing;
      var entries := ListEntries();
      ghost var names := entries;
      var totalBytes := SumSizes(entries);
      var maxBytes := MaxBytes();
      ghost var done := 0;
      NothingEvicted(dir, names, maxBytes);
      while totalBytes > maxBytes && |entries| > 0
        invariant Evicting(old(dir), names, done, maxBytes, dir, entries, totalBytes)
        decreases |entries|
      {
        var oldest := entries[0];
        EvictOne(old(dir), names, done, maxBytes, dir, entries, totalBytes);
        if oldest in dir {
          totalBytes := totalBytes - dir[oldest].size;
        }
        dir := dir - {oldest};
        entries := entries[1..];
        done := done + 1;
      }
      EvictionEnds(old(dir), names, done, maxBytes, dir, entries, totalBytes);
    }

    /** The locked section of a store: evict, then write the new file; nothing else changes. */
    method Write(name: bytes, file: File)
      requires name !in dir
      modifies this
      ensures var names := Listing(old(dir).Keys);
              var k := EvictCount(old(dir), names, MaxBytes());
              dir == (old(dir) - Elements(names[..k]))[name := file]
      ensures DirBytes(dir) <= AtLeastZero(MaxBytes()) + file.size
      ensures 0 <= maxSizeMB < 0x800_0000_0000 ==> DirBytes(dir) <= 1_048_576 * maxSizeMB + file.size
    {
      hide DirBytes, EvictCount, MaxBytes, Listing;
      EvictIfNeeded();
      NewFileAdds(dir, name, file);
      dir := dir[name := file];
    }

    method GetStats() returns (stats: Stats)
      ensures stats == Stats(|dir|, DirBytes(dir), MaxBytes())
    {
      var entries := ListEntries();
      var total := SumSizes(entries);
      ListingLength(entries, dir.Keys);
      stats := Stats(|entries|, total, MaxBytes());
    }
  }

  /** The eviction loop after `done` rounds. */
  ghost predicate Evicting(dir0: Directory, names: seq<bytes>, done: nat, limit: int,
                           dir: Directory, entries: seq<bytes>, total: int) {
    && IsListing(names, dir0.Keys) && done <= |names| && entries == names[done..]
    && dir == dir0 - Elements(names[..done])
    && total == TotalOf(dir0, entries)
    && EvictCount(dir0, names, limit) == done + EvictCount(dir0, entries, limit)
  }

  lemma NothingEvicted(dir: Directory, names: seq<bytes>, limit: int)
    requires IsListing(names, dir.Keys)
    ensures Evicting(dir, names, 0, limit, dir, names, TotalOf(dir, names))
  {
    assert names[0..] == names && dir - Elements(names[..0]) == dir;
  }

  lemma EvictOne(dir0: Directory, names: seq<bytes>, done: nat, limit: int,
                 dir: Directory, entries: seq<bytes>, total: int)
    requires Evicting(dir0, names, done, limit, dir, entries, total) && total > limit && entries != []
    ensures entries[0] in dir
    ensures Evicting(dir0, names, done + 1, limit, dir - {entries[0]}, entries[1..], total - dir[entries[0]].size)
  {
    hide IsListing, Elements;
    StillThere(dir0, names, done);
    OneMoreElement(names, done);
    assert dir - {entries[0]} == dir0 - Elements(names[..done + 1]);
    assert entries[1..] == names[done + 1..];
  }

  lemma OneMoreElement(names: seq<bytes>, k: nat)
    requires k < |names|
    ensures Elements(names[..k + 1]) == Elements(names[..k]) + {names[k]}
  {
    assert names[..k + 1] == names[..k] + [names[k]];
  }

  lemma EvictionEnds(dir0: Directory, names: seq<bytes>, done: nat, limit: int,
                     dir: Directory, entries: seq<bytes>, total: int)
    requires Evicting(dir0, names, done, limit, dir, entries, total) && (total <= limit || entries == [])
    ensures done == EvictCount(dir0, names, limit) && dir == dir0 - Elements(names[..done])
    ensures DirBytes(dir) <= AtLeastZero(limit)
  {
    WithinLimit(dir0, names, done, limit);
  }

  /** A listed file behind an evicted prefix has not been touched. */
  lemma StillThere(dir: Directory, names: seq<bytes>, k: nat)
    requires IsListing(names, dir.Keys) && k < |names|
    ensures names[k] in dir && names[k] in dir - Elements(names[..k])
  {
    assert names[k] in names;
    if names[k] in names[..k] {
      var i :| 0 <= i < k && names[..k][i] == names[k];
      assert Less(names[i], names[k]);
      LessIrreflexive(names[k]);
    }
  }

  lemma InEitherPart(names: seq<bytes>, k: nat, x: bytes)
    requires k <= |names| && x in names
    ensures x in names[..k] || x in names[k..]
  {
    assert names == names[..k] + names[k..];
  }

  lemma WithinLimit(dir: Directory, names: seq<bytes>, k: nat, limit: int)
    requires IsListing(names, dir.Keys) && k <= |names|
    requires TotalOf(dir, names[k..]) <= limit || k == |names|
    ensures DirBytes(dir - Elements(names[..k])) <= AtLeastZero(limit)
  {
    var rest, dir' := names[k..], dir - Elements(names[..k]);
    forall i, j | 0 <= i < j < |rest|
      ensures Less(rest[i], rest[j])
    {
      assert rest[i] == names[k + i] && rest[j] == names[k + j];
    }
    forall x | x in dir'
      ensures x in rest
    {
      InEitherPart(names, k, x);
    }
    CoveringTotal(dir', rest);
    TotalShrinks(dir, dir', rest);
  }

  /**
   * Within one kind the oldest go first, as far as names sort by time: a batch is never evicted before an older one
   * whose number is at most the leading digits of its own. Numerals of equal length always are.
   */
  lemma EvictsOldestOfKind(dir: Directory, limit: int, kind: Kind, m: nat, n: nat)
    requires m < n && |Digits(m)| <= |Digits(n)| && m <= Leading(n, |Digits(m)|) && FileName(kind, m) in dir
    requires var names := Listing(dir.Keys); FileName(kind, n) in names[..EvictCount(dir, names, limit)]
    ensures var names := Listing(dir.Keys); FileName(kind, m) in names[..EvictCount(dir, names, limit)]
  {
    hide FileName, Digits, Listing, EvictCount, Leading;
    NamesSortByLeadingDigits(kind, m, n);
    var names := Listing(dir.Keys);
    PrefixIsDownwardClosed(names, EvictCount(dir, names, limit), FileName(kind, m), FileName(kind, n));
  }

  lemma LeadingDigitsOfEqualLength(m: nat, n: nat)
    requires m < n && |Digits(m)| == |Digits(n)|
    ensures m <= Leading(n, |Digits(m)|)
  {
  }

  /** Among numerals of equal length, as those of all times from 2001 to 2286 are, the oldest always go first. */
  lemma EvictsInOrder(dir: Directory, limit: int, kind: Kind, m: nat, n: nat)
    requires m < n && |Digits(m)| == |Digits(n)| && FileName(kind, m) in dir
    requires var names := Listing(dir.Keys); FileName(kind, n) in names[..EvictCount(dir, names, limit)]
    ensures var names := Listing(dir.Keys); FileName(kind, m) in names[..EvictCount(dir, names, limit)]
  {
    hide FileName, Listing, EvictCount, Digits, Leading;
    LeadingDigitsOfEqualLength(m, n);
    EvictsOldestOfKind(dir, limit, kind, m, n);
  }

  /** In all other cases the newer goes first. */
  lemma EvictsNewerOfKind(dir: Directory, limit: int, kind: Kind, m: nat, n: nat)
    requires m < n && |Digits(m)| <= |Digits(n)| && m > Leading(n, |Digits(m)|) && FileName(kind, n) in dir
    requires var names := Listing(dir.Keys); FileName(kind, m) in names[..EvictCount(dir, names, limit)]
    ensures var names := Listing(dir.Keys); FileName(kind, n) in names[..EvictCount(dir, names, limit)]
  {
    hide FileName, Digits, Listing, EvictCount, Leading;
    LaterNameSortsFirst(kind, m, n);
    var names := Listing(dir.Keys);
    PrefixIsDownwardClosed(names, EvictCount(dir, names, limit), FileName(kind, n), FileName(kind, m));
  }

  /** But across kinds they do not: no metrics batch is evicted while a log batch is left, however much older it is. */
  lemma EvictsLogsFirst(dir: Directory, limit: int, m: nat, n: nat)
    requires FileName(Logs, n) in dir
    requires var names := Listing(dir.Keys); FileName(Metrics, m) in names[..EvictCount(dir, names, limit)]
    ensures var names := Listing(dir.Keys); FileName(Logs, n) in names[..EvictCount(dir, names, limit)]
  {
    hide FileName, Listing, EvictCount;
    LogsSortBeforeMetrics(n, m);
    var names := Listing(dir.Keys);
    PrefixIsDownwardClosed(names, EvictCount(dir, names, limit), FileName(Logs, n), FileName(Metrics, m));
  }

  lemma PrefixIsDownwardClosed(names: seq<bytes>, k: nat, x: bytes, y: bytes)
    requires Ascending(names) && k <= |names| && x in names && y in names[..k] && Less(x, y)
    ensures x in names[..k]
  {
    var i :| 0 <= i < |names| && names[i] == x;
    var j :| 0 <= j < k && names[..k][j] == y;
    if i >= k {
      assert Less(names[j], names[i]);
      LessTransitive(x, y, x);
      LessIrreflexive(x);
    }
    assert names[..k][i] == x;
  }
}
