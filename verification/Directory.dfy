/** The root directory as a list of records: which names it binds, and to what. */
module Directory {
  import opened Base
  import opened Layout
  import opened Tables

  function Inums(dir: seq<Entry>): (r: seq<int>)
    ensures |r| == |dir| && forall i :: 0 <= i < |dir| ==> r[i] == dir[i].inum
  {
    seq(|dir|, i requires 0 <= i < |dir| => dir[i].inum)
  }

  /** How many records hold inumber n. */
  function Count(dir: seq<Entry>, n: int): nat {
    multiset(Inums(dir))[n]
  }

  lemma CountPositive(dir: seq<Entry>, n: int)
    ensures Count(dir, n) > 0 <==> exists i :: 0 <= i < |dir| && dir[i].inum == n
  {
  }

  lemma CountUpdate(dir: seq<Entry>, i: nat, e: Entry, n: int)
    requires i < |dir|
    ensures Count(dir[i := e], n) ==
            Count(dir, n) - (if dir[i].inum == n then 1 else 0) + (if e.inum == n then 1 else 0)
  {
    assert Inums(dir[i := e]) == Inums(dir)[i := e.inum];
    assert Inums(dir)[i] in Inums(dir);
  }

  /** Live records are well named and name inodes other than the root. */
  predicate EntriesOk(dir: seq<Entry>, limit: int) {
    forall i :: 0 <= i < |dir| && Live(dir[i]) ==> 1 <= dir[i].inum < limit && WellNamed(dir[i])
  }

  /** Records that were never used form a suffix: an empty one with garbage in its name
      has no live record after it. */
  predicate GarbageLast(dir: seq<Entry>) {
    forall i, j :: 0 <= i < j < |dir| && Live(dir[j]) && !Live(dir[i]) ==> dir[i].name[0] == 0
  }

  predicate DirOk(dir: seq<Entry>, limit: int) {
    EntriesOk(dir, limit) && GarbageLast(dir)
  }

  predicate Distinct(dir: seq<Entry>) {
    forall i, j :: 0 <= i < j < |dir| && Live(dir[i]) && Live(dir[j]) ==> NameOf(dir[i]) != NameOf(dir[j])
  }

  function LiveNames(dir: seq<Entry>): set<CString> {
    set i | 0 <= i < |dir| && Live(dir[i]) :: NameOf(dir[i])
  }

  /** find_in_dir returns -1 exactly for the names no live record carries, and
      otherwise stops at the first record that carries the name. */
  lemma FindFinds(dir: seq<Entry>, limit: int, name: CString)
    requires EntriesOk(dir, limit)
    ensures var k := First(dir, Matches(name), 0);
            && (k == -1 <==> name !in LiveNames(dir))
            && (k >= 0 ==> Live(dir[k]) && NameOf(dir[k]) == name && 1 <= |name| < MAX_FILE_NAME)
            && (k >= 0 ==> forall i :: 0 <= i < k && Live(dir[i]) ==> NameOf(dir[i]) != name)
  {
    forall i | 0 <= i < |dir| && Live(dir[i])
      ensures Matches(name)(dir[i]) <==> NameOf(dir[i]) == name
      ensures 1 <= |NameOf(dir[i])| < MAX_FILE_NAME
    {
      ComparisonsAreEquality(dir[i], name);
    }
  }

  /** What each name is bound to. */
  function Names(dir: seq<Entry>): map<CString, int> {
    map name | name in LiveNames(dir) :: Find(dir, name)
  }

  /** clear_dir_entry ignores inumbers and compares with strcmp, yet it stops at the
      record that find_in_dir found. */
  lemma ClearAgreesWithFind(dir: seq<Entry>, limit: int, name: CString)
    requires DirOk(dir, limit) && name in LiveNames(dir)
    ensures First(dir, Named(name), 0) == First(dir, Matches(name), 0)
  {
  }

  lemma BoundIndex(dir: seq<Entry>, limit: int, i: nat)
    requires EntriesOk(dir, limit) && Distinct(dir) && i < |dir| && Live(dir[i])
    ensures NameOf(dir[i]) in LiveNames(dir)
    ensures Names(dir)[NameOf(dir[i])] == dir[i].inum
  {
    FindFinds(dir, limit, NameOf(dir[i]));
  }

  /** Filling the first empty record keeps the directory well formed. */
  lemma AddKeepsOk(dir: seq<Entry>, limit: int, k: nat, e: Entry)
    requires DirOk(dir, limit) && k == First(dir, IsEmptySlot, 0)
    requires WellNamed(e) && 1 <= e.inum < limit
    ensures DirOk(dir[k := e], limit)
  {
  }

  /** m binds exactly the live records. */
  ghost predicate Binds(dir: seq<Entry>, m: map<CString, int>) {
    && (forall i :: 0 <= i < |dir| && Live(dir[i]) ==> NameOf(dir[i]) in m && m[NameOf(dir[i])] == dir[i].inum)
    && (forall name :: name in m ==> exists i :: 0 <= i < |dir| && Live(dir[i]) && NameOf(dir[i]) == name)
  }

  lemma NamesBinds(dir: seq<Entry>, limit: int)
    requires EntriesOk(dir, limit) && Distinct(dir)
    ensures Binds(dir, Names(dir))
  {
    forall i | 0 <= i < |dir| && Live(dir[i])
      ensures NameOf(dir[i]) in Names(dir) && Names(dir)[NameOf(dir[i])] == dir[i].inum
    {
      BoundIndex(dir, limit, i);
    }
  }

  lemma BindsUnique(dir: seq<Entry>, m: map<CString, int>, m': map<CString, int>)
    requires Binds(dir, m) && Binds(dir, m')
    ensures m == m'
  {
  }

  lemma AddExtends(dir: seq<Entry>, m: map<CString, int>, k: nat, e: Entry)
    requires Binds(dir, m) && Distinct(dir) && k < |dir| && !Live(dir[k]) && Live(e)
    requires NameOf(e) !in m
    ensures Distinct(dir[k := e]) && Binds(dir[k := e], m[NameOf(e) := e.inum])
  {
    var d, m' := dir[k := e], m[NameOf(e) := e.inum];
    forall name | name in m' ensures exists i :: 0 <= i < |d| && Live(d[i]) && NameOf(d[i]) == name {
      if name == NameOf(e) {
        assert d[k] == e;
      } else {
        var i :| 0 <= i < |dir| && Live(dir[i]) && NameOf(dir[i]) == name;
        assert d[i] == dir[i];
      }
    }
  }

  lemma ClearRemoves(dir: seq<Entry>, m: map<CString, int>, k: nat, e: Entry)
    requires Binds(dir, m) && Distinct(dir) && k < |dir| && Live(dir[k]) && !Live(e)
    ensures Distinct(dir[k := e]) && Binds(dir[k := e], m - {NameOf(dir[k])})
  {
    var d, m' := dir[k := e], m - {NameOf(dir[k])};
    forall name | name in m' ensures exists i :: 0 <= i < |d| && Live(d[i]) && NameOf(d[i]) == name {
      var i :| 0 <= i < |dir| && Live(dir[i]) && NameOf(dir[i]) == name;
      assert d[i] == dir[i];
    }
  }

  lemma AddBinds(dir: seq<Entry>, limit: int, k: nat, e: Entry)
    requires EntriesOk(dir, limit) && Distinct(dir) && k < |dir| && !Live(dir[k])
    requires Live(e) && EntriesOk(dir[k := e], limit)
    requires NameOf(e) !in LiveNames(dir)
    ensures Distinct(dir[k := e])
    ensures Names(dir[k := e]) == Names(dir)[NameOf(e) := e.inum]
  {
    NamesBinds(dir, limit);
    AddExtends(dir, Names(dir), k, e);
    NamesBinds(dir[k := e], limit);
    BindsUnique(dir[k := e], Names(dir[k := e]), Names(dir)[NameOf(e) := e.inum]);
  }

  lemma ClearKeepsOk(dir: seq<Entry>, limit: int, k: nat, e: Entry)
    requires DirOk(dir, limit) && k < |dir| && !Live(e) && e.name[0] == 0
    ensures DirOk(dir[k := e], limit)
  {
  }

  lemma ClearUnbinds(dir: seq<Entry>, limit: int, k: nat, e: Entry)
    requires EntriesOk(dir, limit) && Distinct(dir) && k < |dir| && Live(dir[k])
    requires !Live(e) && EntriesOk(dir[k := e], limit)
    ensures Distinct(dir[k := e])
    ensures Names(dir[k := e]) == Names(dir) - {NameOf(dir[k])}
  {
    NamesBinds(dir, limit);
    ClearRemoves(dir, Names(dir), k, e);
    NamesBinds(dir[k := e], limit);
    BindsUnique(dir[k := e], Names(dir[k := e]), Names(dir) - {NameOf(dir[k])});
  }

  /** How many records name an inode besides record k. */
  lemma CountWithout(dir: seq<Entry>, k: nat)
    requires k < |dir| && Live(dir[k])
    ensures Count(dir, dir[k].inum) == 1 <==> forall i :: 0 <= i < |dir| && i != k ==> dir[i].inum != dir[k].inum
  {
    var n, blank := dir[k].inum, Entry(Zeros(MAX_FILE_NAME), NO_INUM);
    var d := dir[k := blank];
    CountUpdate(dir, k, blank, n);
    CountPositive(d, n);
    assert forall i :: 0 <= i < |d| ==> d[i] == if i == k then blank else dir[i];
  }

  lemma OneRecordOneName(dir: seq<Entry>, m: map<CString, int>, k: nat, other: CString)
    requires Binds(dir, m) && k < |dir| && Live(dir[k]) && other in m && other != NameOf(dir[k])
    requires forall i :: 0 <= i < |dir| && i != k ==> dir[i].inum != dir[k].inum
    ensures m[other] != dir[k].inum
  {
    var i :| 0 <= i < |dir| && Live(dir[i]) && NameOf(dir[i]) == other;
  }

  lemma OneNameOneRecord(dir: seq<Entry>, m: map<CString, int>, k: nat, i: nat)
    requires Binds(dir, m) && Distinct(dir) && k < |dir| && Live(dir[k]) && i < |dir| && i != k
    requires forall other :: other in m && other != NameOf(dir[k]) ==> m[other] != dir[k].inum
    ensures dir[i].inum != dir[k].inum
  {
  }

  /** With distinct names, the only record of an inode is the only name bound to it. */
  lemma OneRecordIsLastName(dir: seq<Entry>, m: map<CString, int>, k: nat)
    requires Binds(dir, m) && Distinct(dir) && k < |dir| && Live(dir[k])
    ensures Count(dir, dir[k].inum) == 1 <==>
            forall other :: other in m && other != NameOf(dir[k]) ==> m[other] != dir[k].inum
  {
    CountWithout(dir, k);
    if Count(dir, dir[k].inum) == 1 {
      forall other | other in m && other != NameOf(dir[k]) ensures m[other] != dir[k].inum {
        OneRecordOneName(dir, m, k, other);
      }
    } else if forall other :: other in m && other != NameOf(dir[k]) ==> m[other] != dir[k].inum {
      forall i | 0 <= i < |dir| && i != k ensures dir[i].inum != dir[k].inum {
        OneNameOneRecord(dir, m, k, i);
      }
    }
  }

  // ---------- counting names ----------

  lemma {:induction false} ImageSize<A, B>(xs: set<A>, ys: set<B>, f: A -> B)
    requires forall x :: x in xs ==> f(x) in ys
    requires forall y :: y in ys ==> exists x :: x in xs && f(x) == y
    requires forall x, z :: x in xs && z in xs && f(x) == f(z) ==> x == z
    ensures |xs| == |ys|
  {
    if x :| x in xs {
      ImageSize(xs - {x}, ys - {f(x)}, f);
    } else if y :| y in ys {
      assert false;
    }
  }

  /** The indices below n that p holds of. */
  function Where(n: nat, p: int -> bool): set<int> {
    set i | 0 <= i < n && p(i)
  }

  lemma WhereNext(n: nat, p: int -> bool)
    ensures |Where(n + 1, p)| == |Where(n, p)| + if p(n) then 1 else 0
  {
    if p(n) {
      assert Where(n + 1, p) == Where(n, p) + {n};
    } else {
      assert Where(n + 1, p) == Where(n, p);
    }
  }

  lemma {:induction false} WhereSize(n: nat, p: int -> bool)
    ensures |Where(n, p)| <= n
    ensures |Where(n, p)| == n <==> forall i :: 0 <= i < n ==> p(i)
  {
    if n == 0 {
    } else {
      WhereSize(n - 1, p);
      WhereNext(n - 1, p);
    }
  }

  function LiveAt(dir: seq<Entry>): int -> bool {
    (i: int) => 0 <= i < |dir| && Live(dir[i])
  }

  lemma LiveRecordsAreNames(dir: seq<Entry>)
    requires Distinct(dir)
    ensures |LiveNames(dir)| == |Where(|dir|, LiveAt(dir))|
  {
    var f := (i: int) => if 0 <= i < |dir| then NameOf(dir[i]) else [];
    var live := Where(|dir|, LiveAt(dir));
    forall name | name in LiveNames(dir) ensures exists i :: i in live && f(i) == name {
      var i :| 0 <= i < |dir| && Live(dir[i]) && NameOf(dir[i]) == name;
      assert i in live && f(i) == name;
    }
    ImageSize(live, LiveNames(dir), f);
  }

  /** add_dir_entry finds an empty record exactly when fewer names are bound than there are records. */
  lemma RoomForName(dir: seq<Entry>)
    requires Distinct(dir)
    ensures First(dir, IsEmptySlot, 0) != -1 <==> |Names(dir)| < |dir|
  {
    assert Names(dir).Keys == LiveNames(dir);
    assert |Names(dir)| == |Names(dir).Keys|;
    LiveRecordsAreNames(dir);
    WhereSize(|dir|, LiveAt(dir));
    if First(dir, IsEmptySlot, 0) == -1 {
      forall i | 0 <= i < |dir| ensures LiveAt(dir)(i) {
        assert !IsEmptySlot(dir[i]);
      }
    } else {
      assert !LiveAt(dir)(First(dir, IsEmptySlot, 0));
    }
  }
}
