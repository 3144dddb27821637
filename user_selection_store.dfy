/** `src/store/userSelectionStore.ts`: an append-only log of the users chosen
    on each device, and the device's most chosen users. */
module UserSelectionStore {
  import opened Storage
  import opened Db
  import opened Ranking
  import opened DeviceId

  /** How many users the recommendation returns at most. */
  const RECOMMENDED_TOP_COUNT: nat := 3

  type SelectionTable = Table<SelectionRow>

  /** `recordUserSelection(selectedUserId)`: one row for this device; `now`
      is `Date.now()`, and `e` feeds `getDeviceId()`. */
  method RecordUserSelection(db: Db, storage: LocalStorage, selectedUserId: int, e: Entropy, now: int, fault: Fault)
    returns (out: Outcome)
    requires db.Valid() && WellFormed(e)
    modifies db`userSelections, storage
    ensures db.Valid()
    ensures storage.items == Stored(old(storage.items), e)
    ensures out == (if Fails(fault, 1) then StorageError else Done)
    ensures db.userSelections == if Fails(fault, 1) then old(db.userSelections)
      else Add(old(db.userSelections), SelectionRow(ReadOrCreate(old(storage.items), e), selectedUserId, now))
  {
    var deviceId := GetDeviceId(storage, e);
    if fault.FailAt? && fault.n == 0 {
      return StorageError;
    }
    db.userSelections := Add(db.userSelections, SelectionRow(deviceId, selectedUserId, now));
    out := Done;
  }

  /** `getAllFromIndex(userSelections, "by_device", device)`, projected on
      `selectedUserId`: the users chosen on `device`, in key order. */
  function Selections(rows: seq<Row<SelectionRow>>, device: string): (sel: seq<int>)
    ensures |sel| <= |rows|
  {
    if rows == [] then []
    else
      var last := rows[|rows| - 1].value;
      Selections(rows[..|rows| - 1], device) + (if last.deviceId == device then [last.selectedUserId] else [])
  }

  /** A recorded selection shows up last for its own device and nowhere else. */
  lemma SelectionsAfterRecord(t: SelectionTable, row: SelectionRow, device: string)
    requires Valid(t)
    ensures Selections(Add(t, row).rows, device) ==
      Selections(t.rows, device) + (if row.deviceId == device then [row.selectedUserId] else [])
  {
    assert Add(t, row).rows[..|t.rows|] == t.rows;
  }

  /** The position of the first choice of `id` in `sel`, or `|sel|` when it
      was never chosen. */
  function FirstIndex(sel: seq<int>, id: int): (k: nat)
    ensures k <= |sel|
    ensures k < |sel| <==> id in sel
    ensures k < |sel| ==> sel[k] == id
  {
    if sel == [] then 0
    else
      var init := sel[..|sel| - 1];
      if id in init then FirstIndex(init, id)
      else |init| + (if sel[|sel| - 1] == id then 0 else 1)
  }

  /** No earlier choice was of `id`. */
  lemma {:induction false} FirstIndexFirst(sel: seq<int>, id: int, j: nat)
    requires j < FirstIndex(sel, id) && j < |sel|
    ensures sel[j] != id
  {
    var init := sel[..|sel| - 1];
    if id in init && j < |init| {
      FirstIndexFirst(init, id, j);
    }
  }

  /** `Map.get`: the position of the entry for `id`, or `|entries|` when
      there is none. */
  function IndexOf(entries: seq<Scored>, id: int): (i: nat)
    ensures i <= |entries|
    ensures i < |entries| ==> entries[i].id == id
  {
    if entries == [] then 0
    else if entries[0].id == id then 0
    else 1 + IndexOf(entries[1..], id)
  }

  /** `countByUser.set(id, (countByUser.get(id) ?? 0) + 1)`: a `Map` keeps a
      key where it was first set and appends a new key. */
  function Tally(entries: seq<Scored>, id: int): seq<Scored> {
    var i := IndexOf(entries, id);
    if i < |entries| then entries[i := Scored(id, entries[i].score + 1)]
    else entries + [Scored(id, 1)]
  }

  /** `[...countByUser.entries()]` after the counting loop over `sel`. */
  function Counts(sel: seq<int>): seq<Scored> {
    if sel == [] then [] else Tally(Counts(sel[..|sel| - 1]), sel[|sel| - 1])
  }

  /** The entries of `Counts(sel)` have distinct ids, each chosen in `sel`
      and counted exactly, every chosen id has an entry, and the entries come
      in the order of first choice. */
  ghost predicate CountsOf(entries: seq<Scored>, sel: seq<int>) {
    DistinctIds(entries) && Counted(entries, sel) && Covers(entries, sel) && FirstOrder(entries, sel)
  }

  ghost predicate DistinctIds(entries: seq<Scored>) {
    forall i, j :: 0 <= i < j < |entries| ==> entries[i].id != entries[j].id
  }

  ghost predicate Counted(entries: seq<Scored>, sel: seq<int>) {
    forall i :: 0 <= i < |entries| ==> entries[i].id in sel && entries[i].score == Occurrences(sel, entries[i].id)
  }

  ghost predicate Covers(entries: seq<Scored>, sel: seq<int>) {
    forall id :: id in sel ==> IndexOf(entries, id) < |entries|
  }

  ghost predicate FirstOrder(entries: seq<Scored>, sel: seq<int>) {
    forall i, j :: 0 <= i < j < |entries| ==> FirstIndex(sel, entries[i].id) < FirstIndex(sel, entries[j].id)
  }

  lemma CountAppend(sel: seq<int>, x: int, id: int)
    ensures Occurrences(sel + [x], id) == Occurrences(sel, id) + (if x == id then 1 else 0)
  {
    assert (sel + [x])[..|sel|] == sel;
  }

  lemma FirstIndexAppend(sel: seq<int>, x: int, id: int)
    ensures FirstIndex(sel + [x], id) == if id in sel then FirstIndex(sel, id) else if x == id then |sel| else |sel| + 1
  {
    assert (sel + [x])[..|sel|] == sel;
  }

  lemma {:induction false} IndexOfAppend(entries: seq<Scored>, y: Scored, id: int)
    ensures IndexOf(entries + [y], id) ==
      if IndexOf(entries, id) < |entries| then IndexOf(entries, id) else if y.id == id then |entries| else |entries| + 1
  {
    if entries != [] {
      IndexOfAppend(entries[1..], y, id);
      assert (entries + [y])[1..] == entries[1..] + [y];
    }
  }

  lemma {:induction false} IndexOfSameIds(entries: seq<Scored>, entries': seq<Scored>, id: int)
    requires |entries| == |entries'|
    requires forall j :: 0 <= j < |entries| ==> entries'[j].id == entries[j].id
    ensures IndexOf(entries', id) == IndexOf(entries, id)
  {
    if entries != [] {
      IndexOfSameIds(entries[1..], entries'[1..], id);
    }
  }

  lemma {:induction false} CountsCorrect(sel: seq<int>)
    ensures CountsOf(Counts(sel), sel)
  {
    if sel != [] {
      var init, x := sel[..|sel| - 1], sel[|sel| - 1];
      CountsCorrect(init);
      assert sel == init + [x];
      var e := Counts(init);
      if x in init {
        TallyKnown(e, init, x);
      } else {
        TallyNew(e, init, x);
      }
    }
  }

  /** Choosing again a user already chosen raises that user's count only. */
  lemma TallyKnown(e: seq<Scored>, sel: seq<int>, x: int)
    requires CountsOf(e, sel) && x in sel
    ensures CountsOf(Tally(e, x), sel + [x])
  {
    var i := IndexOf(e, x);
    assert i < |e|;
    var y := Scored(x, e[i].score + 1);
    TallyAt(e, x);
    var e' := Tally(e, x);
    UpdateSameIds(e, i, y);
    KnownCounted(e, sel, x, i);
    KnownCovers(e, e', sel, x);
    KnownOrder(e, e', sel, x);
    KnownDistinct(e, e');
    assert DistinctIds(e') && Counted(e', sel + [x]) && Covers(e', sel + [x]) && FirstOrder(e', sel + [x]);
  }

  /** Replacing an entry by one with the same id keeps every id in place. */
  lemma UpdateSameIds(e: seq<Scored>, i: nat, y: Scored)
    requires i < |e| && y.id == e[i].id
    ensures |e[i := y]| == |e| && forall j :: 0 <= j < |e| ==> e[i := y][j].id == e[j].id
  {
  }

  lemma KnownDistinct(e: seq<Scored>, e': seq<Scored>)
    requires DistinctIds(e)
    requires |e'| == |e| && forall j :: 0 <= j < |e| ==> e'[j].id == e[j].id
    ensures DistinctIds(e')
  {
  }

  lemma KnownCovers(e: seq<Scored>, e': seq<Scored>, sel: seq<int>, x: int)
    requires Covers(e, sel) && x in sel
    requires |e'| == |e| && forall j :: 0 <= j < |e| ==> e'[j].id == e[j].id
    ensures Covers(e', sel + [x])
  {
    forall id | id in sel + [x] ensures IndexOf(e', id) < |e'| {
      IndexOfSameIds(e, e', id);
    }
  }

  lemma TallyAt(e: seq<Scored>, x: int)
    requires IndexOf(e, x) < |e|
    ensures Tally(e, x) == e[IndexOf(e, x) := Scored(x, e[IndexOf(e, x)].score + 1)]
  {
  }

  lemma KnownCounted(e: seq<Scored>, sel: seq<int>, x: int, i: nat)
    requires DistinctIds(e) && Counted(e, sel)
    requires i < |e| && e[i].id == x
    ensures Counted(e[i := Scored(x, e[i].score + 1)], sel + [x])
  {
    var e' := e[i := Scored(x, e[i].score + 1)];
    forall j | 0 <= j < |e'| ensures e'[j].id in sel + [x] && e'[j].score == Occurrences(sel + [x], e'[j].id) {
      CountAppend(sel, x, e[j].id);
      if j != i {
        assert e[j].id != e[i].id;
      }
    }
  }

  lemma KnownOrder(e: seq<Scored>, e': seq<Scored>, sel: seq<int>, x: int)
    requires Counted(e, sel) && FirstOrder(e, sel)
    requires |e'| == |e| && forall j :: 0 <= j < |e| ==> e'[j].id == e[j].id
    ensures FirstOrder(e', sel + [x])
  {
    forall j | 0 <= j < |e'| ensures FirstIndex(sel + [x], e'[j].id) == FirstIndex(sel, e[j].id) {
      FirstIndexAppend(sel, x, e[j].id);
    }
  }

  /** Choosing a user for the first time appends an entry with count 1. */
  lemma TallyNew(e: seq<Scored>, sel: seq<int>, x: int)
    requires CountsOf(e, sel) && x !in sel
    ensures CountsOf(Tally(e, x), sel + [x])
  {
    var sel' := sel + [x];
    assert IndexOf(e, x) == |e|;
    var e' := e + [Scored(x, 1)];
    assert Tally(e, x) == e';
    assert DistinctIds(e') by {
      forall i, j | 0 <= i < j < |e'| ensures e'[i].id != e'[j].id {
        assert e[i].id in sel;
      }
    }
    forall j | 0 <= j < |e'| ensures e'[j].id in sel' && e'[j].score == Occurrences(sel', e'[j].id) {
      CountAppend(sel, x, e'[j].id);
      if j < |e| {
        assert e[j].id in sel;
      }
    }
    assert Counted(e', sel');
    forall id | id in sel' ensures IndexOf(e', id) < |e'| {
      IndexOfAppend(e, Scored(x, 1), id);
    }
    assert Covers(e', sel');
    forall j | 0 <= j < |e'| ensures FirstIndex(sel', e'[j].id) == if j < |e| then FirstIndex(sel, e[j].id) else |sel| {
      FirstIndexAppend(sel, x, e'[j].id);
      if j < |e| {
        assert e[j].id in sel;
      }
    }
    assert FirstOrder(e', sel');
  }

  /** The counting loop of `getRecommendedUserIds`. */
  method CountByUser(sel: seq<int>) returns (entries: seq<Scored>)
    ensures entries == Counts(sel)
    ensures CountsOf(entries, sel)
  {
    entries := [];
    var i := 0;
    while i < |sel|
      invariant 0 <= i <= |sel|
      invariant entries == Counts(sel[..i])
    {
      assert sel[..i + 1][..i] == sel[..i];
      var id := sel[i];
      var k := IndexOf(entries, id);
      if k < |entries| {
        entries := entries[k := Scored(id, entries[k].score + 1)];
      } else {
        entries := entries + [Scored(id, 1)];
      }
      i := i + 1;
    }
    assert sel[..i] == sel;
    CountsCorrect(sel);
  }

  /** The sort and slice after the count. */
  function TopUsers(sel: seq<int>): seq<int> {
    Ids(Take(SortByScore(Counts(sel)), RECOMMENDED_TOP_COUNT))
  }

  /** At most three users, all distinct and all chosen on the device, by
      descending count, equal counts in order of first choice; none exactly
      when nobody was chosen. */
  lemma TopUsersSound(sel: seq<int>)
    ensures var r := TopUsers(sel);
      && |r| <= RECOMMENDED_TOP_COUNT
      && (r == [] <==> sel == [])
      && (forall i :: 0 <= i < |r| ==> r[i] in sel)
      && (forall i, j :: 0 <= i < j < |r| ==> r[i] != r[j])
      && (forall i, j :: 0 <= i < j < |r| ==>
            || Occurrences(sel, r[i]) > Occurrences(sel, r[j])
            || (Occurrences(sel, r[i]) == Occurrences(sel, r[j]) && FirstIndex(sel, r[i]) < FirstIndex(sel, r[j])))
  {
    var e := Counts(sel);
    CountsCorrect(sel);
    var rank := id => FirstIndex(sel, id);
    SortRanked(e, rank);
    var s := SortByScore(e);
    SortedCounts(sel, s);
    var r := TopUsers(sel);
    assert |r| <= |s| && forall i :: 0 <= i < |r| ==> r[i] == s[i].id;
    forall i, j | 0 <= i < j < |r|
      ensures r[i] != r[j]
      ensures || Occurrences(sel, r[i]) > Occurrences(sel, r[j])
              || (Occurrences(sel, r[i]) == Occurrences(sel, r[j]) && FirstIndex(sel, r[i]) < FirstIndex(sel, r[j]))
    {
      assert Before(s[i], s[j], rank);
      assert s[i].score == Occurrences(sel, s[i].id) && s[j].score == Occurrences(sel, s[j].id);
    }
    if sel != [] {
      assert IndexOf(e, sel[0]) < |e|;
      assert |s| > 0;
    }
  }

  /** After the sort, every entry is a chosen user with its exact count. */
  lemma SortedCounts(sel: seq<int>, s: seq<Scored>)
    requires s == SortByScore(Counts(sel))
    ensures forall i :: 0 <= i < |s| ==> s[i].id in sel && s[i].score == Occurrences(sel, s[i].id)
  {
    var e := Counts(sel);
    CountsCorrect(sel);
    forall i | 0 <= i < |s| ensures s[i].id in sel && s[i].score == Occurrences(sel, s[i].id) {
      assert s[i] in multiset(e);
    }
  }

  /** Nobody more chosen is left out: a chosen user missing from the result
      means three users were returned, each chosen at least as often. */
  lemma TopUsersComplete(sel: seq<int>, id: int)
    requires id in sel && id !in TopUsers(sel)
    ensures var r := TopUsers(sel);
      && |r| == RECOMMENDED_TOP_COUNT
      && forall i :: 0 <= i < |r| ==> Occurrences(sel, r[i]) >= Occurrences(sel, id)
  {
    var s := SortByScore(Counts(sel));
    var t := Take(s, RECOMMENDED_TOP_COUNT);
    SortedCounts(sel, s);
    var j := SortedEntry(sel, s, id);
    var r := TopUsers(sel);
    assert |r| == |t| && forall i :: 0 <= i < |t| ==> r[i] == s[i].id;
    assert forall i :: 0 <= i < |t| ==> s[i].id != id;
    forall i | 0 <= i < |t| ensures Occurrences(sel, r[i]) >= Occurrences(sel, id) {
      assert s[i].score >= s[j].score && s[i].score == Occurrences(sel, s[i].id);
    }
  }

  /** A chosen user has an entry, with its count, somewhere in the sorted counts. */
  lemma SortedEntry(sel: seq<int>, s: seq<Scored>, id: int) returns (j: nat)
    requires id in sel && s == SortByScore(Counts(sel))
    ensures j < |s| && s[j].id == id && s[j].score == Occurrences(sel, id)
  {
    var e := Counts(sel);
    CountsCorrect(sel);
    var x := e[IndexOf(e, id)];
    assert x in multiset(s);
    j :| 0 <= j < |s| && s[j] == x;
  }

  /** `getRecommendedUserIds()`: the top users of this device's selections;
      `e` feeds `getDeviceId()`. */
  method GetRecommendedUserIds(db: Db, storage: LocalStorage, e: Entropy, fault: Fault) returns (r: Result<seq<int>>)
    requires WellFormed(e)
    modifies storage
    ensures storage.items == Stored(old(storage.items), e)
    ensures r == if fault.FailAt? then Failed
      else Ok(TopUsers(Selections(db.userSelections.rows, ReadOrCreate(old(storage.items), e))))
  {
    var deviceId := GetDeviceId(storage, e);
    if fault.FailAt? {
      return Failed;
    }
    var all := Selections(db.userSelections.rows, deviceId);
    var countByUser := CountByUser(all);
    var sorted := Ids(Take(SortByScore(countByUser), RECOMMENDED_TOP_COUNT));
    return Ok(sorted);
  }

  /** With no selection on the device nobody is recommended; after the
      selections 5, 5, 3, 5, 3 the recommendation is 5 (three times), then 3
      (twice). */
  lemma FiveThenThree()
    ensures TopUsers([]) == []
    ensures TopUsers([5, 5, 3, 5, 3]) == [5, 3]
  {
    CountsFiveThenThree();
    var e := [Scored(5, 3), Scored(3, 2)];
    SortedPair();
    assert Take(e, RECOMMENDED_TOP_COUNT) == e;
    assert Ids(e) == [5, 3];
    assert Counts([]) == [];
    assert SortByScore([]) == [];
  }

  lemma SortedPair()
    ensures SortByScore([Scored(5, 3), Scored(3, 2)]) == [Scored(5, 3), Scored(3, 2)]
  {
    var e := [Scored(5, 3), Scored(3, 2)];
    assert e[1..] == [Scored(3, 2)];
    assert [Scored(3, 2)][1..] == [];
    assert SortByScore([Scored(3, 2)]) == Insert(Scored(3, 2), []);
  }

  lemma CountsFiveThenThree()
    ensures Counts([5, 5, 3, 5, 3]) == [Scored(5, 3), Scored(3, 2)]
  {
    CountsFirstThree();
    assert [5, 5, 3, 5][..3] == [5, 5, 3];
    assert IndexOf([Scored(5, 2), Scored(3, 1)], 5) == 0;
    assert Counts([5, 5, 3, 5]) == [Scored(5, 3), Scored(3, 1)];
    assert [5, 5, 3, 5, 3][..4] == [5, 5, 3, 5];
    assert IndexOf([Scored(5, 3), Scored(3, 1)], 3) == 1;
  }

  lemma CountsFirstThree()
    ensures Counts([5, 5, 3]) == [Scored(5, 2), Scored(3, 1)]
  {
    assert [5, 5, 3][..2] == [5, 5] && [5, 5][..1] == [5] && [5][..0] == [];
    assert Counts([5]) == [Scored(5, 1)];
    assert Counts([5, 5]) == [Scored(5, 2)];
  }
}
