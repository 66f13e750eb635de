/** The list of an application's log files: three directory scans, one file per name, ordered by date and
    rotation number. */
module LogFiles {
  import opened Timestamps
  import opened StableSort

  /** YYYY-MM-DD, from the file name or from the modification time. */
  type Date = s: string | |s| == 10 witness "2024-01-15"

  /** `rotation` is the number that the file name carries, or 0. */
  datatype FileInfo = FileInfo(name: string, date: Date, rotation: nat, path: string)

  // ---------------------------------------------------------------------------------------------
  // One file per name
  // ---------------------------------------------------------------------------------------------

  predicate Named(files: seq<FileInfo>, name: string) {
    exists f <- files :: f.name == name
  }

  /** The first file of every name, in the order of the scans. */
  function Distinct(files: seq<FileInfo>): seq<FileInfo> {
    if files == [] then []
    else
      var d, f := Distinct(files[..|files| - 1]), files[|files| - 1];
      if Named(d, f.name) then d else d + [f]
  }

  predicate FirstOfItsName(files: seq<FileInfo>, i: nat)
    requires i < |files|
  {
    forall j: nat | j < i :: files[j].name != files[i].name
  }

  predicate DistinctlyNamed(files: seq<FileInfo>) {
    forall i: nat, j: nat | i < j < |files| :: files[i].name != files[j].name
  }

  lemma {:induction false} DistinctNames(files: seq<FileInfo>)
    ensures DistinctlyNamed(Distinct(files))
    ensures forall name :: Named(Distinct(files), name) <==> Named(files, name)
  {
    if files != [] {
      var init, f := files[..|files| - 1], files[|files| - 1];
      var d := Distinct(init);
      DistinctNames(init);
      assert files == init + [f];
      if !Named(d, f.name) {
        NewNameStaysDistinct(d, f);
        forall name ensures Named(d + [f], name) <==> Named(d, name) || f.name == name {
          NamedSnoc(d, f, name);
        }
      }
      forall name ensures Named(files, name) <==> Named(init, name) || f.name == name {
        NamedSnoc(init, f, name);
      }
    }
  }

  lemma NewNameStaysDistinct(files: seq<FileInfo>, f: FileInfo)
    requires DistinctlyNamed(files) && !Named(files, f.name)
    ensures DistinctlyNamed(files + [f])
  {
    forall i: nat | i < |files| ensures files[i].name != f.name {
      assert files[i] in files;
    }
  }

  lemma NamedSnoc(files: seq<FileInfo>, f: FileInfo, name: string)
    ensures Named(files + [f], name) <==> Named(files, name) || f.name == name
  {
    assert f in files + [f];
    if Named(files, name) {
      var g :| g in files && g.name == name;
      assert g in files + [f];
    }
  }

  predicate IsFirst(files: seq<FileInfo>, f: FileInfo) {
    exists i: nat | i < |files| :: files[i] == f && FirstOfItsName(files, i)
  }

  lemma FirstSnoc(files: seq<FileInfo>, last: FileInfo, f: FileInfo)
    ensures IsFirst(files + [last], f) <==> IsFirst(files, f) || (last == f && !Named(files, last.name))
  {
    var all := files + [last];
    NamedByIndex(files, last.name);
    assert all[|files|] == last && forall i: nat | i < |files| :: all[i] == files[i];
    assert FirstOfItsName(all, |files|) <==> !Named(files, last.name);
    forall i: nat | i < |files| ensures FirstOfItsName(all, i) <==> FirstOfItsName(files, i) {
      assert forall j: nat | j <= i :: all[j] == files[j];
    }
  }

  /** Kept are exactly the first-scanned files of their names. */
  lemma {:induction false} DistinctKeepsTheFirst(files: seq<FileInfo>, f: FileInfo)
    ensures f in Distinct(files) <==> exists i: nat | i < |files| :: files[i] == f && FirstOfItsName(files, i)
  {
    if files != [] {
      var init, last := files[..|files| - 1], files[|files| - 1];
      assert files == init + [last];
      DistinctKeepsTheFirst(init, f);
      DistinctNames(init);
      FirstSnoc(init, last, f);
    }
    assert IsFirst(files, f) <==> exists i: nat | i < |files| :: files[i] == f && FirstOfItsName(files, i);
  }

  lemma NamedByIndex(files: seq<FileInfo>, name: string)
    ensures Named(files, name) <==> exists i: nat | i < |files| :: files[i].name == name
  {
    if i: nat :| i < |files| && files[i].name == name {
      assert files[i] in files;
    }
  }

  /** And they keep their order. */
  lemma {:induction false} DistinctKeepsOrder(files: seq<FileInfo>, more: seq<FileInfo>)
    ensures Distinct(files) <= Distinct(files + more)
  {
    if more == [] {
      assert files + more == files;
    } else {
      assert (files + more)[..|files + more| - 1] == files + more[..|more| - 1];
      DistinctKeepsOrder(files, more[..|more| - 1]);
    }
  }

  /** Removes the later files of a name in place: what is kept is written over what has been read. */
  method Compact(files: array<FileInfo>) returns (n: nat)
    modifies files
    ensures n <= files.Length && files[..n] == Distinct(old(files[..]))
  {
    var seen: set<string> := {};
    n := 0;
    ghost var scanned := files[..];
    var i := 0;
    while i < files.Length
      invariant n <= i <= files.Length
      invariant files[..n] == Distinct(scanned[..i])
      invariant files[i..] == scanned[i..]
      invariant forall name :: name in seen <==> Named(files[..n], name)
    {
      var f, next := files[i], i + 1;
      assert f == files[i..][0] == scanned[i];
      DistinctNext(scanned, i, next);
      assert files[next..] == scanned[next..] by {
        assert files[next..] == files[i..][1..] && scanned[next..] == scanned[i..][1..];
      }
      if f.name !in seen {
        seen := seen + {f.name};
        ghost var kept := files[..n];
        files[n] := f;
        assert files[..n + 1] == kept + [f];
        forall name ensures name in seen <==> Named(kept + [f], name) {
          NamedSnoc(kept, f, name);
        }
        n := n + 1;
      }
      i := next;
    }
    assert scanned[..i] == scanned;
  }

  lemma DistinctNext(files: seq<FileInfo>, i: nat, next: nat)
    requires next == i + 1 <= |files|
    ensures Distinct(files[..next])
         == Distinct(files[..i]) + if Named(Distinct(files[..i]), files[i].name) then [] else [files[i]]
  {
    assert files[..next][..i] == files[..i];
  }

  // ---------------------------------------------------------------------------------------------
  // Order
  // ---------------------------------------------------------------------------------------------

  function Marks(n: nat): string {
    seq(n, i => '1')
  }

  /** A key that orders as date and rotation number do: the date, and a mark for every rotation. */
  function Key(f: FileInfo): Timestamp {
    f.date + Marks(f.rotation)
  }

  lemma {:induction false} MarksAreOrdered(m: nat, n: nat)
    ensures Leq(Marks(m), Marks(n)) <==> m <= n
  {
    if m > 0 && n > 0 {
      MarksAreOrdered(m - 1, n - 1);
      assert Marks(m)[1..] == Marks(m - 1) && Marks(n)[1..] == Marks(n - 1);
    }
  }

  /** The order of the list: by date, and on one date by rotation number. */
  lemma KeyOrders(f: FileInfo, g: FileInfo)
    ensures Leq(Key(f), Key(g)) <==> if f.date != g.date then Leq(f.date, g.date) else f.rotation <= g.rotation
  {
    HeadsFirst(f.date, g.date, Marks(f.rotation), Marks(g.rotation));
    MarksAreOrdered(f.rotation, g.rotation);
  }

  function Listed(scanned: seq<FileInfo>): seq<FileInfo> {
    Sort(Distinct(scanned), Key)
  }

  /** The list is in order, and keeps the order of the scans among files of one date and rotation number; no
      other sequence does both. */
  lemma {:induction false} ListIsTheOrderedDistinctFiles(scanned: seq<FileInfo>, r: seq<FileInfo>)
    ensures r == Listed(scanned) <==> Sorted(r, Key) && SameByKey(r, Distinct(scanned), Key)
  {
    var d := Distinct(scanned);
    SortSorts(d, Key);
    forall k ensures WithKey(Sort(d, Key), k, Key) == WithKey(d, k, Key) {
      SortIsStable(d, k, Key);
    }
    if Sorted(r, Key) && SameByKey(r, d, Key) {
      StableSortIsUnique(r, Listed(scanned), Key);
    }
  }

  /** It has a file of every scanned name. */
  lemma {:induction false} ListHasTheScannedNames(scanned: seq<FileInfo>)
    ensures multiset(Listed(scanned)) == multiset(Distinct(scanned))
    ensures forall name :: Named(Listed(scanned), name) <==> Named(scanned, name)
  {
    var d := Distinct(scanned);
    SortPermutes(d, Key);
    DistinctNames(scanned);
    forall name ensures Named(Sort(d, Key), name) <==> Named(d, name) {
      SameFilesSameNames(d, Sort(d, Key), name);
    }
  }

  lemma SameFilesSameNames(a: seq<FileInfo>, b: seq<FileInfo>, name: string)
    requires multiset(a) == multiset(b)
    ensures Named(a, name) <==> Named(b, name)
  {
    assert forall f :: f in a <==> f in multiset(a);
    assert forall f :: f in b <==> f in multiset(b);
  }

  /** By date, then by rotation number, and no name twice. */
  lemma ListIsInOrder(scanned: seq<FileInfo>, i: nat, j: nat)
    requires i < j < |Listed(scanned)|
    ensures var f, g := Listed(scanned)[i], Listed(scanned)[j];
            && (if f.date != g.date then Leq(f.date, g.date) else f.rotation <= g.rotation)
            && f.name != g.name
  {
    var d := Distinct(scanned);
    SortSorts(d, Key);
    KeyOrders(Listed(scanned)[i], Listed(scanned)[j]);
    DistinctNames(scanned);
    SortPermutes(d, Key);
    NamesStayDistinct(d, Listed(scanned), i, j);
  }

  lemma {:induction false} NamesStayDistinct(a: seq<FileInfo>, b: seq<FileInfo>, i: nat, j: nat)
    requires multiset(a) == multiset(b) && i < j < |b|
    requires DistinctlyNamed(a)
    ensures b[i].name != b[j].name
  {
    if b[i].name == b[j].name {
      assert b == b[..j] + [b[j]] + b[j + 1..];
      assert b[i] in b[..j];
      assert multiset(b)[b[i]] >= 1 && multiset(b)[b[j]] >= 1;
      assert b[i] in a && b[j] in a;
      if b[i] == b[j] {
        assert multiset(a)[b[j]] >= 2;
        TwiceInside(a, b[j]);
      }
      assert false;
    }
  }

  lemma TwiceInside(a: seq<FileInfo>, f: FileInfo)
    requires multiset(a)[f] >= 2
    ensures exists k: nat, l: nat | k < l < |a| :: a[k] == f && a[l] == f
  {
    var k: nat :| k < |a| && a[k] == f;
    assert a == a[..k] + [f] + a[k + 1..];
    if f in a[..k] {
      var l: nat :| l < k && a[l] == f;
    } else {
      assert f in a[k + 1..];
      var l: nat :| l < |a| - (k + 1) && a[k + 1..][l] == f;
      assert a[k + 1 + l] == f;
    }
  }

  /** The scans of the application's directory, of its archive and, where that is another one, of the common
      archive; duplicates go in place, then the rest is sorted stably. */
  method ListFiles(root: seq<FileInfo>, archive: seq<FileInfo>, common: seq<FileInfo>, sameArchive: bool)
    returns (r: seq<FileInfo>)
    ensures r == Listed(root + archive + if sameArchive then [] else common)
  {
    var scanned := root + archive;
    if !sameArchive {
      scanned := scanned + common;
    }
    assert scanned == root + archive + if sameArchive then [] else common;
    var files := new FileInfo[|scanned|](i requires 0 <= i < |scanned| => scanned[i]);
    assert files[..] == scanned;
    var n := Compact(files);
    r := Sort(files[..n], Key);
  }
}
