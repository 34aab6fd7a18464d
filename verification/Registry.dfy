/** The entity registry: append-only identity rows and code history with validity intervals. Superseded open rows
    stay in the store; the results say when reads still give the right step functions. Days are numbers, and so are
    codes and names, which are only compared for equality. */
module Registries {
  import opened Wrappers

  type Day = int
  type Code = int
  type Name = int
  type Entity = nat

  /** A row of an entity; facets other than code and name are carried along unchanged and left out. */
  datatype Row = Row(code: Code, name: Name, validFrom: Day, validTo: Option<Day>, version: nat)

  predicate Covers(r: Row, day: Day) {
    r.validFrom <= day && (r.validTo.Some? ==> day <= r.validTo.value)
  }

  /** The order in which reads prefer rows: by start, then by version. */
  predicate Precedes(a: Row, b: Row) {
    a.validFrom < b.validFrom || (a.validFrom == b.validFrom && a.version < b.version)
  }

  /** The greatest of the rows that cover `day`; on a tie the first. */
  function Covering(rows: seq<Row>, day: Day): Option<Row> {
    if rows == [] then None
    else
      var best, r := Covering(rows[..|rows| - 1], day), rows[|rows| - 1];
      if Covers(r, day) && (best.None? || Precedes(best.value, r)) then Some(r) else best
  }

  /** The greatest open row. */
  function GreatestOpen(rows: seq<Row>): Option<Row> {
    if rows == [] then None
    else
      var best, r := GreatestOpen(rows[..|rows| - 1]), rows[|rows| - 1];
      if r.validTo.None? && (best.None? || Precedes(best.value, r)) then Some(r) else best
  }

  function Greatest(rows: seq<Row>): (best: Row)
    requires rows != []
  {
    if |rows| == 1 then rows[0]
    else
      var best, r := Greatest(rows[..|rows| - 1]), rows[|rows| - 1];
      if Precedes(best, r) then r else best
  }

  function CurrentRow(rows: seq<Row>): Row
    requires rows != []
  {
    var best := GreatestOpen(rows);
    if best.Some? then best.value else Greatest(rows)
  }

  /** What a read prefers: on a day the covering row, without a day the current one. */
  function Read(rows: seq<Row>, day: Option<Day>): Option<Row>
    requires rows != []
  {
    if day.Some? then Covering(rows, day.value) else Some(CurrentRow(rows))
  }

  function MaxVersion(rows: seq<Row>): nat {
    if rows == [] then 0
    else
      var m, v := MaxVersion(rows[..|rows| - 1]), rows[|rows| - 1].version;
      if v > m then v else m
  }

  function Appended(rows: seq<Row>, r: Row): seq<Row> {
    rows + [r.(version := MaxVersion(rows) + 1)]
  }

  /** The row that covers the day before `start`, closed there unless it ends there anyway. */
  function ClosedBefore(rows: seq<Row>, start: Day): (closed: seq<Row>)
    requires rows != []
    ensures closed != []
  {
    var previous := Covering(rows, start - 1);
    if previous.Some? && (previous.value.validTo.None? || previous.value.validTo.value > start - 1)
    then Appended(rows, previous.value.(validTo := Some(start - 1)))
    else rows
  }

  function NameBefore(rows: seq<Row>, start: Day): Name
    requires rows != []
  {
    var previous := Covering(rows, start - 1);
    if previous.Some? then previous.value.name else CurrentRow(rows).name
  }

  /** The rows after a name change. */
  function NameChanged(rows: seq<Row>, name: Name, start: Day, end: Option<Day>): seq<Row>
    requires rows != []
  {
    var closed := ClosedBefore(rows, start);
    var current := CurrentRow(closed);
    var named := Appended(closed, current.(name := name, validFrom := start, validTo := end));
    if end.Some?
    then Appended(named, current.(name := NameBefore(rows, start), validFrom := end.value + 1, validTo := None))
    else named
  }

  /** The rows after a code change. */
  function CodeChanged(rows: seq<Row>, code: Code, start: Day): seq<Row>
    requires rows != []
  {
    var current := CurrentRow(rows);
    var closed := Appended(rows, current.(validTo := Some(start - 1)));
    Appended(closed, current.(code := code, validFrom := start, validTo := None))
  }

  // ---------------------------------------------------------------- the code history

  datatype Entry = Entry(entity: Entity, code: Code, validFrom: Day, validTo: Option<Day>, version: nat)

  /** Copies of the entity's open entries among the first `n`, closed. */
  function Reclosed(codes: seq<Entry>, n: nat, entity: Entity, before: Day): seq<Entry>
    requires n <= |codes|
  {
    if n == 0 then []
    else
      var e := codes[n - 1];
      Reclosed(codes, n - 1, entity, before) +
        (if e.entity == entity && e.validTo.None? then [e.(validTo := Some(before), version := e.version + 1)] else [])
  }

  function Adopted(codes: seq<Entry>, entity: Entity, code: Code, start: Day): seq<Entry> {
    codes + Reclosed(codes, |codes|, entity, start - 1) + [Entry(entity, code, start, None, 1)]
  }

  predicate SameKey(a: Entry, b: Entry) {
    a.entity == b.entity && a.code == b.code && a.validFrom == b.validFrom
  }

  /** The newest version under `key` among the first `n` entries; on a tie the first. */
  function Newest(codes: seq<Entry>, n: nat, key: Entry): Option<Entry>
    requires n <= |codes|
  {
    if n == 0 then None
    else
      var best, e := Newest(codes, n - 1, key), codes[n - 1];
      if SameKey(e, key) && (best.None? || best.value.version < e.version) then Some(e) else best
  }

  predicate InForce(e: Entry, day: Day) {
    e.validFrom <= day && (e.validTo.Some? ==> day <= e.validTo.value)
  }

  class EntityRegistry {
    var rows: map<Entity, seq<Row>>
    var codes: seq<Entry>
    var nextId: Entity

    ghost predicate Valid()
      reads this
    {
      forall e :: e in rows ==> rows[e] != [] && e < nextId
    }

    constructor (idStart: Entity)
      ensures Valid() && rows == map[] && codes == [] && nextId == idStart
    {
      rows, codes, nextId := map[], [], idStart;
    }

    method Create(code: Code, name: Name, start: Day) returns (entity: Entity)
      requires Valid()
      modifies this
      ensures Valid() && entity == old(nextId) && entity !in old(rows)
      ensures rows == old(rows)[entity := [Row(code, name, start, None, 1)]]
      ensures codes == old(codes) + [Entry(entity, code, start, None, 1)]
    {
      entity := nextId;
      nextId := nextId + 1;
      codes := codes + [Entry(entity, code, start, None, 1)];
      rows := rows[entity := [Row(code, name, start, None, 1)]];
    }

    method CoveringRow(entity: Entity, day: Option<Day>) returns (best: Option<Row>)
      requires Valid()
      ensures best == if entity in rows then Read(rows[entity], day) else None
    {
      best := None;
      if entity !in rows {
        return;
      }
      var all := rows[entity];
      if day.None? {
        var current := Current(all);
        return Some(current);
      }
      for i := 0 to |all|
        invariant best == Covering(all[..i], day.value)
      {
        assert all[..i + 1][..i] == all[..i];
        if Covers(all[i], day.value) && (best.None? || Precedes(best.value, all[i])) {
          best := Some(all[i]);
        }
      }
      assert all[..|all|] == all;
    }

    method Current(all: seq<Row>) returns (best: Row)
      requires all != []
      ensures best == CurrentRow(all)
    {
      var open: Option<Row> := None;
      best := all[0];
      for i := 0 to |all|
        invariant open == GreatestOpen(all[..i]) && (i > 0 ==> best == Greatest(all[..i])) && (i == 0 ==> best == all[0])
      {
        assert all[..i + 1][..i] == all[..i];
        if all[i].validTo.None? && (open.None? || Precedes(open.value, all[i])) {
          open := Some(all[i]);
        }
        if Precedes(best, all[i]) {
          best := all[i];
        }
      }
      assert all[..|all|] == all;
      if open.Some? {
        best := open.value;
      }
    }

    method Append(entity: Entity, r: Row)
      requires Valid() && entity in rows
      modifies this`rows
      ensures Valid() && rows == old(rows)[entity := Appended(old(rows)[entity], r)]
    {
      var all, newest := rows[entity], 0;
      for i := 0 to |all|
        invariant newest == MaxVersion(all[..i])
      {
        assert all[..i + 1][..i] == all[..i];
        if all[i].version > newest {
          newest := all[i].version;
        }
      }
      assert all[..|all|] == all;
      rows := rows[entity := all + [r.(version := newest + 1)]];
    }

    /** Closes the row that covers the day before, adds the new name and, for a bounded change, what resumes. */
    method AddNameChange(entity: Entity, name: Name, start: Day, end: Option<Day>) returns (known: bool)
      requires Valid()
      modifies this`rows
      ensures Valid() && known == (entity in old(rows))
      ensures rows == if known then old(rows)[entity := NameChanged(old(rows)[entity], name, start, end)] else old(rows)
    {
      if entity !in rows {
        return false;
      }
      var resume := CloseCovering(entity, start - 1);
      var current := Current(rows[entity]);
      Append(entity, current.(name := name, validFrom := start, validTo := end));
      if end.Some? {
        Append(entity, current.(name := resume, validFrom := end.value + 1, validTo := None));
      }
      known := true;
    }

    method CloseCovering(entity: Entity, before: Day) returns (resume: Name)
      requires Valid() && entity in rows
      modifies this`rows
      ensures Valid() && resume == NameBefore(old(rows)[entity], before + 1)
      ensures rows == old(rows)[entity := ClosedBefore(old(rows)[entity], before + 1)]
    {
      var previous := CoveringRow(entity, Some(before));
      var current := Current(rows[entity]);
      resume := if previous.Some? then previous.value.name else current.name;
      if previous.Some? && (previous.value.validTo.None? || previous.value.validTo.value > before) {
        Append(entity, previous.value.(validTo := Some(before)));
      }
    }

    /** Closes every open entry of the entity again, superseded ones included, and adopts the new code. */
    method AddCodeChange(entity: Entity, code: Code, start: Day) returns (known: bool)
      requires Valid()
      modifies this`rows, this`codes
      ensures Valid() && known == (entity in old(rows))
      ensures known ==> rows == old(rows)[entity := CodeChanged(old(rows)[entity], code, start)]
      ensures known ==> codes == Adopted(old(codes), entity, code, start)
      ensures !known ==> rows == old(rows)
    {
      var history := codes;
      for i := 0 to |history|
        invariant Valid() && rows == old(rows) && codes == history + Reclosed(history, i, entity, start - 1)
      {
        var e := history[i];
        if e.entity == entity && e.validTo.None? {
          codes := codes + [e.(validTo := Some(start - 1), version := e.version + 1)];
        }
      }
      if entity !in rows {
        return false;
      }
      var current := Current(rows[entity]);
      Append(entity, current.(validTo := Some(start - 1)));
      codes := codes + [Entry(entity, code, start, None, 1)];
      Append(entity, current.(code := code, validFrom := start, validTo := None));
      known := true;
    }

    method NameAsOf(entity: Entity, day: Option<Day>) returns (name: Option<Name>)
      requires Valid()
      ensures name == var r := if entity in rows then Read(rows[entity], day) else None;
                      if r.Some? then Some(r.value.name) else None
    {
      var r := CoveringRow(entity, day);
      name := if r.Some? then Some(r.value.name) else None;
    }
  }

  // ---------------------------------------------------------------- what is read, in any store

  /** Rows that hold on the day, rows without an end, all rows. */
  function On(day: Day): Row -> bool {
    (x: Row) => x.validFrom <= day && (x.validTo.None? || day <= x.validTo.value)
  }

  function Open(): Row -> bool {
    (x: Row) => x.validTo.None?
  }

  function Any(): Row -> bool {
    (x: Row) => true
  }

  /** Row `i` is the first of the greatest by start and version among those that `p` holds for. */
  ghost predicate FirstGreatest(rows: seq<Row>, p: Row -> bool, i: nat) {
    && i < |rows| && p(rows[i])
    && (forall j :: i < j < |rows| && p(rows[j]) ==>
          rows[j].validFrom < rows[i].validFrom || (rows[j].validFrom == rows[i].validFrom && rows[j].version <= rows[i].version))
    && (forall j :: 0 <= j < i && p(rows[j]) ==>
          rows[j].validFrom < rows[i].validFrom || (rows[j].validFrom == rows[i].validFrom && rows[j].version < rows[i].version))
  }

  ghost predicate IsFirstGreatest(rows: seq<Row>, p: Row -> bool, best: Option<Row>) {
    if best.None? then forall i :: 0 <= i < |rows| ==> !p(rows[i])
    else exists i: nat :: FirstGreatest(rows, p, i) && rows[i] == best.value
  }

  /** One row more takes over exactly when it is strictly greater. */
  lemma GreatestGrows(rows: seq<Row>, p: Row -> bool, best: Option<Row>, r: Row)
    requires IsFirstGreatest(rows, p, best)
    ensures IsFirstGreatest(rows + [r], p,
              if p(r) && (best.None? || best.value.validFrom < r.validFrom
                          || (best.value.validFrom == r.validFrom && best.value.version < r.version)) then Some(r) else best)
  {
    var all := rows + [r];
    if best.Some? {
      var i: nat :| FirstGreatest(rows, p, i) && rows[i] == best.value;
      if p(r) && (rows[i].validFrom < r.validFrom || (rows[i].validFrom == r.validFrom && rows[i].version < r.version)) {
        assert FirstGreatest(all, p, |rows|);
      } else {
        assert FirstGreatest(all, p, i);
      }
    } else if p(r) {
      assert FirstGreatest(all, p, |rows|);
    }
  }

  lemma {:induction false} CoveringMeaning(rows: seq<Row>, day: Day)
    ensures IsFirstGreatest(rows, On(day), Covering(rows, day))
  {
    if rows != [] {
      var init := rows[..|rows| - 1];
      CoveringMeaning(init, day);
      GreatestGrows(init, On(day), Covering(init, day), rows[|rows| - 1]);
      assert init + [rows[|rows| - 1]] == rows;
    }
  }

  lemma {:induction false} GreatestOpenMeaning(rows: seq<Row>)
    ensures IsFirstGreatest(rows, Open(), GreatestOpen(rows))
  {
    if rows != [] {
      var init := rows[..|rows| - 1];
      GreatestOpenMeaning(init);
      GreatestGrows(init, Open(), GreatestOpen(init), rows[|rows| - 1]);
      assert init + [rows[|rows| - 1]] == rows;
    }
  }

  lemma {:induction false} GreatestMeaning(rows: seq<Row>)
    requires rows != []
    ensures IsFirstGreatest(rows, Any(), Some(Greatest(rows)))
  {
    var init, last := rows[..|rows| - 1], rows[|rows| - 1];
    assert init + [last] == rows;
    var before := if init == [] then None else Some(Greatest(init));
    if init != [] {
      GreatestMeaning(init);
    }
    GreatestGrows(init, Any(), before, last);
  }

  /** In any store: a read on a day gives the greatest row, by start and then version, of those that cover it, the first
      of them on a tie, and nothing if none does. */
  lemma ReadOnDay(rows: seq<Row>, day: Day)
    requires rows != []
    ensures IsFirstGreatest(rows, On(day), Read(rows, Some(day)))
  {
    CoveringMeaning(rows, day);
  }

  /** A read without a day gives the greatest open row, or the greatest of all when none is open. */
  lemma DaylessRead(rows: seq<Row>)
    requires rows != []
    ensures var open := exists i :: 0 <= i < |rows| && rows[i].validTo.None?;
            IsFirstGreatest(rows, if open then Open() else Any(), Read(rows, None))
  {
    GreatestOpenMeaning(rows);
    GreatestMeaning(rows);
    if GreatestOpen(rows).None? {
      forall i | 0 <= i < |rows| ensures rows[i].validTo.Some? {
        assert !Open()(rows[i]);
      }
    } else {
      var i: nat :| FirstGreatest(rows, Open(), i) && rows[i] == GreatestOpen(rows).value;
      assert Open()(rows[i]);
    }
  }

  /** The next version is one more than the greatest so far. */
  lemma {:induction false} NextVersion(rows: seq<Row>)
    ensures forall r :: r in rows ==> r.version <= MaxVersion(rows)
    ensures MaxVersion(rows) == 0 || exists r :: r in rows && r.version == MaxVersion(rows)
  {
    if rows != [] {
      var init, last := rows[..|rows| - 1], rows[|rows| - 1];
      NextVersion(init);
      assert rows == init + [last];
    }
  }

  /** A closing copy is made exactly when the row that covers the day before reaches beyond it. */
  lemma ClosesWhatReachesOn(rows: seq<Row>, start: Day)
    requires rows != []
    ensures ClosedBefore(rows, start) == rows <==>
              var r := Covering(rows, start - 1); r.None? || r.value.validTo == Some(start - 1)
    ensures |ClosedBefore(rows, start)| <= |rows| + 1
  {
    CoveringMeaning(rows, start - 1);
    assert forall r :: |rows + [r]| != |rows|;
  }

  // ---------------------------------------------------------------- reading rows

  predicate AtMost(a: Row, b: Row) {
    a == b || Precedes(a, b)
  }

  /** Versions count the rows from one, as appending keeps them. */
  ghost predicate Numbered(rows: seq<Row>) {
    forall i {:trigger rows[i]} :: 0 <= i < |rows| ==> rows[i].version == i + 1
  }

  lemma {:induction false} VersionsCount(rows: seq<Row>)
    requires Numbered(rows)
    ensures MaxVersion(rows) == |rows|
  {
    if rows != [] {
      VersionsCount(rows[..|rows| - 1]);
    }
  }

  lemma CoveringOfAppended(rows: seq<Row>, r: Row, day: Day)
    ensures Covering(rows + [r], day) ==
              var best := Covering(rows, day);
              if Covers(r, day) && (best.None? || Precedes(best.value, r)) then Some(r) else best
  {
    assert (rows + [r])[..|rows|] == rows;
  }

  lemma OpenOfAppended(rows: seq<Row>, r: Row)
    ensures GreatestOpen(rows + [r]) ==
              var best := GreatestOpen(rows);
              if r.validTo.None? && (best.None? || Precedes(best.value, r)) then Some(r) else best
  {
    assert (rows + [r])[..|rows|] == rows;
  }

  /** The covering row is in the store, covers the day, and every row that does is at most it. */
  lemma {:induction false} CoveringIsGreatest(rows: seq<Row>, day: Day)
    requires Numbered(rows)
    ensures Covering(rows, day).Some? ==> Covering(rows, day).value in rows && Covers(Covering(rows, day).value, day)
    ensures forall r :: r in rows && Covers(r, day) ==> Covering(rows, day).Some? && AtMost(r, Covering(rows, day).value)
  {
    if rows != [] {
      var init, last := rows[..|rows| - 1], rows[|rows| - 1];
      CoveringIsGreatest(init, day);
      assert rows == init + [last];
      forall r | r in rows && Covers(r, day) ensures Covering(rows, day).Some? && AtMost(r, Covering(rows, day).value) {
        if r != last {
          assert r in init;
        }
      }
    }
  }

  /** Where exactly the open rows cover the day, the covering row is the greatest open row. */
  lemma {:induction false} OpenCovers(rows: seq<Row>, day: Day)
    requires forall r :: r in rows ==> (Covers(r, day) <==> r.validTo.None?)
    ensures Covering(rows, day) == GreatestOpen(rows)
  {
    if rows != [] {
      var init, last := rows[..|rows| - 1], rows[|rows| - 1];
      assert rows == init + [last];
      OpenCovers(init, day);
    }
  }

  // ---------------------------------------------------------------- chronological changes

  /** Some greater row covers `day`. */
  ghost predicate Succeeded(rows: seq<Row>, r: Row, day: Day) {
    exists s :: s in rows && Precedes(r, s) && Covers(s, day)
  }

  /** Intervals end by `horizon` and start by the day after it; some row is open. */
  ghost predicate Bounded(rows: seq<Row>, horizon: Day) {
    && rows != [] && Numbered(rows) && GreatestOpen(rows).Some?
    && forall r {:trigger r in rows} :: r in rows ==> r.validFrom <= horizon + 1 && (r.validTo.Some? ==> r.validTo.value <= horizon)
  }

  /** Where a row has ended, a greater one covers. */
  ghost predicate Handed(rows: seq<Row>) {
    forall r, day {:trigger Succeeded(rows, r, day)} :: r in rows && r.validTo.Some? && day > r.validTo.value ==>
      Succeeded(rows, r, day)
  }

  /** What chronological changes keep. */
  ghost predicate Chronicle(rows: seq<Row>, horizon: Day) {
    Bounded(rows, horizon) && Handed(rows)
  }

  /** After the horizon the current row covers. */
  lemma CurrentCovers(rows: seq<Row>, horizon: Day, day: Day)
    requires Chronicle(rows, horizon) && day > horizon
    ensures Covering(rows, day) == Some(CurrentRow(rows)) && CurrentRow(rows).validTo.None?
    ensures CurrentRow(rows) in rows
  {
    OpenCovers(rows, day);
    CoveringIsGreatest(rows, day);
  }

  datatype Face = Face(code: Code, name: Name)

  /** What a reader sees on `day`. */
  function Seen(rows: seq<Row>, day: Day): Option<Face> {
    var r := Covering(rows, day);
    if r.Some? then Some(Face(r.value.code, r.value.name)) else None
  }

  lemma AppendKeepsBounded(rows: seq<Row>, r: Row, horizon: Day, later: Day)
    requires Bounded(rows, horizon) && horizon <= later
    requires r.validFrom <= later + 1 && (r.validTo.Some? ==> r.validTo.value <= later)
    ensures Bounded(Appended(rows, r), later)
  {
    VersionsCount(rows);
    OpenOfAppended(rows, r.(version := MaxVersion(rows) + 1));
  }

  /** What was handed over stays so when rows are appended; only the new closed rows need successors. */
  lemma AppendedHands(rows: seq<Row>, all: seq<Row>)
    requires Handed(rows) && rows <= all
    requires forall r, day {:trigger Succeeded(all, r, day)} ::
               r in all[|rows|..] && r.validTo.Some? && day > r.validTo.value ==> Succeeded(all, r, day)
    ensures Handed(all)
  {
    assert all == rows + all[|rows|..];
    forall r, day | r in all && r.validTo.Some? && day > r.validTo.value ensures Succeeded(all, r, day) {
      if r in rows {
        assert Succeeded(rows, r, day);
        SucceededStays(rows, all[|rows|..], r, day);
      }
    }
  }

  /** A closed copy of the row that covers day `t` hides no other row on any day it covers. */
  lemma CopyHidesNothing(rows: seq<Row>, horizon: Day, t: Day, before: Day, day: Day)
    requires Chronicle(rows, horizon) && Covering(rows, t).Some? && day <= before && day <= t
    ensures Seen(Appended(rows, Covering(rows, t).value.(validTo := Some(before))), day) == Seen(rows, day)
  {
    var p := Covering(rows, t).value;
    var copy := p.(validTo := Some(before), version := MaxVersion(rows) + 1);
    VersionsCount(rows);
    CoveringOfAppended(rows, copy, day);
    CoveringIsGreatest(rows, t);
    CoveringIsGreatest(rows, day);
    if Covers(copy, day) {
      assert Covers(p, day);
      var c := Covering(rows, day).value;
      if c.validFrom == p.validFrom && !Covers(c, t) {
        assert Succeeded(rows, c, t);
      }
    }
  }

  /** A row that starts after `day` is not seen on it. */
  lemma LaterRowUnseen(rows: seq<Row>, r: Row, day: Day)
    requires day < r.validFrom
    ensures Seen(Appended(rows, r), day) == Seen(rows, day)
  {
    CoveringOfAppended(rows, r.(version := MaxVersion(rows) + 1), day);
  }

  /** A new row that starts no earlier than any other is what a reader sees while it lasts. */
  lemma NewestRowSeen(rows: seq<Row>, r: Row, day: Day)
    requires Numbered(rows) && Covers(r, day) && forall s {:trigger s in rows} :: s in rows ==> s.validFrom <= r.validFrom
    ensures Seen(Appended(rows, r), day) == Some(Face(r.code, r.name))
  {
    VersionsCount(rows);
    CoveringIsGreatest(rows, day);
    CoveringOfAppended(rows, r.(version := MaxVersion(rows) + 1), day);
  }

  lemma SucceededStays(rows: seq<Row>, more: seq<Row>, r: Row, day: Day)
    requires Succeeded(rows, r, day)
    ensures Succeeded(rows + more, r, day)
  {
    var s :| s in rows && Precedes(r, s) && Covers(s, day);
    assert s in rows + more;
  }

  /** Closing the covering row changes nothing before `start` and leaves the current row current. */
  lemma ClosingUnseen(rows: seq<Row>, horizon: Day, start: Day)
    requires Chronicle(rows, horizon) && horizon < start
    ensures var closed := ClosedBefore(rows, start);
            && CurrentRow(closed) == CurrentRow(rows) && Numbered(closed)
            && (forall s {:trigger s in closed} :: s in closed ==> s.validFrom <= start)
            && (forall day {:trigger Seen(closed, day)} :: day < start ==> Seen(closed, day) == Seen(rows, day))
  {
    if Covering(rows, start - 1).Some? {
      var copy := Covering(rows, start - 1).value.(validTo := Some(start - 1));
      VersionsCount(rows);
      CoveringIsGreatest(rows, start - 1);
      OpenOfAppended(rows, copy.(version := MaxVersion(rows) + 1));
      forall day | day < start ensures Seen(ClosedBefore(rows, start), day) == Seen(rows, day) {
        CopyHidesNothing(rows, horizon, start - 1, start - 1, day);
      }
    }
  }

  /** The new name's row, and the resumed one, over rows that all start by then. */
  lemma NamedSeen(closed: seq<Row>, n: Row, resumed: Row, start: Day, end: Option<Day>, day: Day)
    requires Numbered(closed) && forall s {:trigger s in closed} :: s in closed ==> s.validFrom <= start
    requires n.validFrom == start && n.validTo == end && (end.Some? ==> start <= end.value)
    requires end.Some? ==> resumed.validFrom == end.value + 1 && resumed.validTo.None?
    ensures Seen(if end.Some? then Appended(Appended(closed, n), resumed) else Appended(closed, n), day) ==
              if day < start then Seen(closed, day)
              else if end.None? || day <= end.value then Some(Face(n.code, n.name))
              else Some(Face(resumed.code, resumed.name))
  {
    VersionsCount(closed);
    if day < start {
      LaterRowUnseen(closed, n, day);
    } else if end.None? || day <= end.value {
      NewestRowSeen(closed, n, day);
    }
    if end.Some? {
      if day <= end.value {
        LaterRowUnseen(Appended(closed, n), resumed, day);
      } else {
        NewestRowSeen(Appended(closed, n), resumed, day);
      }
    }
  }

  /** A name change dated after the horizon: before it nothing changes, during it the new name holds, and after a
      bounded one the name of the day before it resumes, or the current one if there was no day before it. */
  lemma NameChangeSeen(rows: seq<Row>, horizon: Day, name: Name, start: Day, end: Option<Day>, day: Day)
    requires Chronicle(rows, horizon) && horizon < start && (end.Some? ==> start <= end.value)
    ensures var code, was := CurrentRow(rows).code, Seen(rows, start - 1);
            Seen(NameChanged(rows, name, start, end), day) ==
              if day < start then Seen(rows, day)
              else if end.None? || day <= end.value then Some(Face(code, name))
              else Some(Face(code, if was.Some? then was.value.name else CurrentRow(rows).name))
  {
    ClosingUnseen(rows, horizon, start);
    var closed, current := ClosedBefore(rows, start), CurrentRow(rows);
    NamedSeen(closed, current.(name := name, validFrom := start, validTo := end),
              current.(name := NameBefore(rows, start), validFrom := (if end.Some? then end.value else 0) + 1, validTo := None),
              start, end, day);
  }

  lemma CodeChangeSeen(rows: seq<Row>, horizon: Day, code: Code, start: Day, day: Day)
    requires Chronicle(rows, horizon) && horizon < start
    ensures Seen(CodeChanged(rows, code, start), day) ==
              if day < start then Seen(rows, day) else Some(Face(code, CurrentRow(rows).name))
  {
    CurrentCovers(rows, horizon, start);
    var current := CurrentRow(rows);
    var copy := current.(validTo := Some(start - 1));
    var recoded := current.(code := code, validFrom := start, validTo := None);
    if day < start {
      CopyHidesNothing(rows, horizon, start, start - 1, day);
      LaterRowUnseen(Appended(rows, copy), recoded, day);
    } else {
      VersionsCount(rows);
      NewestRowSeen(Appended(rows, copy), recoded, day);
    }
  }

  /** The rows a name change adds, in order. */
  lemma NameChangeAdds(rows: seq<Row>, name: Name, start: Day, end: Option<Day>)
    requires rows != [] && Numbered(rows)
    ensures var p, all := Covering(rows, start - 1), NameChanged(rows, name, start, end);
            var closed := ClosedBefore(rows, start);
            && rows <= closed <= all && |all| == |closed| + (if end.Some? then 2 else 1)
            && (|closed| > |rows| ==>
                  && p.Some? && |closed| == |rows| + 1
                  && closed[|rows|] == p.value.(validTo := Some(start - 1), version := |rows| + 1))
            && all[|closed|].validFrom == start && all[|closed|].validTo == end
            && (end.Some? ==> all[|closed| + 1].validFrom == end.value + 1 && all[|closed| + 1].validTo == None)
  {
    VersionsCount(rows);
  }

  lemma ClosingKeepsBounded(rows: seq<Row>, horizon: Day, start: Day, later: Day)
    requires Bounded(rows, horizon) && horizon < start && start - 1 <= later
    ensures Bounded(ClosedBefore(rows, start), later)
  {
    var p := Covering(rows, start - 1);
    if p.Some? {
      CoveringIsGreatest(rows, start - 1);
      AppendKeepsBounded(rows, p.value.(validTo := Some(start - 1)), horizon, later);
    }
  }

  lemma NameChangeKeepsBounded(rows: seq<Row>, horizon: Day, name: Name, start: Day, end: Option<Day>)
    requires Bounded(rows, horizon) && horizon < start && (end.Some? ==> start <= end.value)
    ensures Bounded(NameChanged(rows, name, start, end), if end.Some? then end.value else start - 1)
  {
    var later := if end.Some? then end.value else start - 1;
    var closed := ClosedBefore(rows, start);
    ClosingKeepsBounded(rows, horizon, start, later);
    var current := CurrentRow(closed);
    var n := current.(name := name, validFrom := start, validTo := end);
    AppendKeepsBounded(closed, n, later, later);
    if end.Some? {
      AppendKeepsBounded(Appended(closed, n),
                         current.(name := NameBefore(rows, start), validFrom := end.value + 1, validTo := None), later, later);
    }
  }

  lemma NameChangeHands(rows: seq<Row>, horizon: Day, name: Name, start: Day, end: Option<Day>)
    requires Chronicle(rows, horizon) && horizon < start && (end.Some? ==> start <= end.value)
    ensures Handed(NameChanged(rows, name, start, end))
  {
    CoveringIsGreatest(rows, start - 1);
    NameChangeAdds(rows, name, start, end);
    var all, closed := NameChanged(rows, name, start, end), ClosedBefore(rows, start);
    assert all[|closed|] in all && (end.Some? ==> all[|closed| + 1] in all);
    forall r, day | r in all[|rows|..] && r.validTo.Some? && day > r.validTo.value ensures Succeeded(all, r, day) {
      var i :| |rows| <= i < |all| && all[i] == r;
      if i < |closed| {
        assert r == closed[|rows|] && r.validFrom < start;
        assert Precedes(r, all[if end.None? || day <= end.value then |closed| else |closed| + 1]);
      }
    }
    AppendedHands(rows, all);
  }

  lemma CodeChangeKeepsChronicle(rows: seq<Row>, horizon: Day, code: Code, start: Day)
    requires Chronicle(rows, horizon) && horizon < start
    ensures Chronicle(CodeChanged(rows, code, start), start - 1)
  {
    var current := CurrentRow(rows);
    CurrentCovers(rows, horizon, start);
    var copy := current.(validTo := Some(start - 1));
    var recoded := current.(code := code, validFrom := start, validTo := None);
    AppendKeepsBounded(rows, copy, horizon, start - 1);
    AppendKeepsBounded(Appended(rows, copy), recoded, start - 1, start - 1);
    CodeChangeHands(rows, current, copy, recoded, CodeChanged(rows, code, start), start);
  }

  lemma CodeChangeHands(rows: seq<Row>, current: Row, copy: Row, recoded: Row, all: seq<Row>, start: Day)
    requires Handed(rows) && Numbered(rows) && current.validFrom <= start
    requires copy == current.(validTo := Some(start - 1)) && recoded.validFrom == start && recoded.validTo.None?
    requires all == Appended(Appended(rows, copy), recoded)
    ensures Handed(all)
  {
    VersionsCount(rows);
    VersionsCount(Appended(rows, copy));
    var n := |rows|;
    assert all[n] == copy.(version := n + 1) && all[n + 1] == recoded.(version := n + 2) && all[n + 1] in all;
    forall r, day | r in all[n..] && r.validTo.Some? && day > r.validTo.value ensures Succeeded(all, r, day) {
      assert r == all[n];
      assert Precedes(r, all[n + 1]) && Covers(all[n + 1], day);
    }
    AppendedHands(rows, all);
  }

  // ---------------------------------------------------------------- the whole life of an entity

  datatype Change = Renamed(name: Name, start: Day, end: Option<Day>) | Recoded(code: Code, start: Day)

  function Life(first: Face, birth: Day, changes: seq<Change>): (rows: seq<Row>)
    ensures rows != []
  {
    if changes == [] then [Row(first.code, first.name, birth, None, 1)]
    else
      Changed(Life(first, birth, changes[..|changes| - 1]), changes[|changes| - 1])
  }

  /** What a change makes of the face before it, from its start on. */
  function Shown(c: Change, day: Day, now: Face, resumed: Name): Face {
    match c
    case Renamed(name, _, end) => Face(now.code, if end.None? || day <= end.value then name else resumed)
    case Recoded(code, _) => Face(code, now.name)
  }

  /** What is seen on a day after a change, from what was seen before it on that day, on its start and the day before. */
  function SeenAfter(c: Change, day: Day, earlier: Option<Face>, now: Option<Face>, was: Option<Face>): Option<Face> {
    if day < c.start || now.None? then earlier
    else Some(Shown(c, day, now.value, if was.Some? then was.value.name else now.value.name))
  }

  /** What the changes mean, day by day: nothing before the birth; after a bounded name the name of the day before it. */
  function At(first: Face, birth: Day, changes: seq<Change>, day: Day): Option<Face> {
    if changes == [] then if day < birth then None else Some(first)
    else
      var before, c := changes[..|changes| - 1], changes[|changes| - 1];
      SeenAfter(c, day, At(first, birth, before, day), At(first, birth, before, c.start), At(first, birth, before, c.start - 1))
  }

  /** The last day for which changes have said more than what holds from then on. */
  function Horizon(birth: Day, changes: seq<Change>): Day {
    if changes == [] then birth - 1 else Until(changes[|changes| - 1])
  }

  /** No change starts before the one before it, or before that one's end; changes of one day are allowed. */
  predicate Chronological(birth: Day, changes: seq<Change>) {
    changes == [] ||
    var before, c := changes[..|changes| - 1], changes[|changes| - 1];
    Chronological(birth, before) && birth <= c.start && InOrder(c, Horizon(birth, before))
  }

  predicate InOrder(c: Change, horizon: Day) {
    horizon < c.start && (c.Renamed? && c.end.Some? ==> c.start <= c.end.value)
  }

  function Changed(rows: seq<Row>, c: Change): (changed: seq<Row>)
    requires rows != []
    ensures changed != []
  {
    match c
    case Renamed(name, start, end) => NameChanged(rows, name, start, end)
    case Recoded(code, start) => CodeChanged(rows, code, start)
  }

  function Until(c: Change): Day {
    if c.Renamed? && c.end.Some? then c.end.value else c.start - 1
  }

  lemma ChangeSeen(rows: seq<Row>, horizon: Day, c: Change, day: Day)
    requires Chronicle(rows, horizon) && InOrder(c, horizon)
    ensures var current, was := Face(CurrentRow(rows).code, CurrentRow(rows).name), Seen(rows, c.start - 1);
            Seen(Changed(rows, c), day) ==
              SeenAfter(c, day, Seen(rows, day), Some(current), was)
  {
    match c
    case Renamed(name, start, end) => NameChangeSeen(rows, horizon, name, start, end, day);
    case Recoded(code, start) => CodeChangeSeen(rows, horizon, code, start, day);
  }

  lemma ChangeKeepsChronicle(rows: seq<Row>, horizon: Day, c: Change)
    requires Chronicle(rows, horizon) && InOrder(c, horizon)
    ensures Chronicle(Changed(rows, c), Until(c))
  {
    match c
    case Renamed(name, start, end) => NameChangeKeepsChronicle(rows, horizon, name, start, end);
    case Recoded(code, start) => CodeChangeKeepsChronicle(rows, horizon, code, start);
  }

  lemma Newborn(first: Face, birth: Day, day: Day)
    ensures Chronicle(Life(first, birth, []), birth - 1)
    ensures Seen(Life(first, birth, []), day) == if day < birth then None else Some(first)
  {
    var r := Row(first.code, first.name, birth, None, 1);
    assert Life(first, birth, []) == [r] && [r][..0] == [];
    assert GreatestOpen([r]) == Some(r);
    assert Covering([r], day) == if Covers(r, day) then Some(r) else None;
  }

  lemma {:induction false} LifeIsChronicle(first: Face, birth: Day, changes: seq<Change>, day: Day)
    requires Chronological(birth, changes)
    ensures Chronicle(Life(first, birth, changes), Horizon(birth, changes)) && birth <= Horizon(birth, changes) + 1
    ensures Seen(Life(first, birth, changes), day).Some? <==> birth <= day
    decreases |changes|
  {
    if changes == [] {
      Newborn(first, birth, day);
    } else {
      var before, c := changes[..|changes| - 1], changes[|changes| - 1];
      LifeIsChronicle(first, birth, before, c.start - 1);
      LifeIsChronicle(first, birth, before, day);
      ChangeSeen(Life(first, birth, before), Horizon(birth, before), c, day);
      ChangeKeepsChronicle(Life(first, birth, before), Horizon(birth, before), c);
    }
  }

  lemma LastOne(changes: seq<Change>)
    requires changes != []
    ensures changes[..|changes| - 1] + [changes[|changes| - 1]] == changes
  {
  }

  lemma AtOneMore(first: Face, birth: Day, before: seq<Change>, c: Change, day: Day)
    ensures At(first, birth, before + [c], day) ==
              SeenAfter(c, day, At(first, birth, before, day), At(first, birth, before, c.start), At(first, birth, before, c.start - 1))
  {
    assert (before + [c])[..|before|] == before;
  }

  lemma FollowsOneMore(first: Face, birth: Day, before: seq<Change>, c: Change, day: Day)
    requires Chronological(birth, before + [c])
    requires Seen(Life(first, birth, before), day) == At(first, birth, before, day)
    requires Seen(Life(first, birth, before), c.start) == At(first, birth, before, c.start)
    requires Seen(Life(first, birth, before), c.start - 1) == At(first, birth, before, c.start - 1)
    ensures Seen(Life(first, birth, before + [c]), day) == At(first, birth, before + [c], day)
  {
    LifeSeen(first, birth, before, c, day);
    AtOneMore(first, birth, before, c, day);
  }

  /** Step functions: after any chronological sequence of name and code changes, several on one day included, a read as
      of any day gives what the changes mean on that day. */
  lemma {:induction false} ReadsFollowTheChanges(first: Face, birth: Day, changes: seq<Change>, day: Day)
    requires Chronological(birth, changes)
    ensures Seen(Life(first, birth, changes), day) == At(first, birth, changes, day)
    decreases |changes|
  {
    if changes == [] {
      Newborn(first, birth, day);
    } else {
      var before, c := changes[..|changes| - 1], changes[|changes| - 1];
      ReadsFollowTheChanges(first, birth, before, day);
      ReadsFollowTheChanges(first, birth, before, c.start - 1);
      ReadsFollowTheChanges(first, birth, before, c.start);
      LastOne(changes);
      FollowsOneMore(first, birth, before, c, day);
    }
  }

  /** Something is read exactly from the birth of the entity on. */
  lemma ReadsFromBirthOn(first: Face, birth: Day, changes: seq<Change>, day: Day)
    requires Chronological(birth, changes)
    ensures At(first, birth, changes, day).Some? <==> birth <= day
  {
    LifeIsChronicle(first, birth, changes, day);
    ReadsFollowTheChanges(first, birth, changes, day);
  }

  /** A read without a day gives what holds after all dates of the changes. */
  lemma DaylessReadIsLast(first: Face, birth: Day, changes: seq<Change>, day: Day)
    requires Chronological(birth, changes) && Horizon(birth, changes) < day
    ensures var r := Read(Life(first, birth, changes), None);
            r.Some? && Some(Face(r.value.code, r.value.name)) == At(first, birth, changes, day)
  {
    LifeIsChronicle(first, birth, changes, day);
    CurrentIsLast(Life(first, birth, changes), Horizon(birth, changes), day);
    ReadsFollowTheChanges(first, birth, changes, day);
  }

  /** One change more, in terms of what was seen before it. */
  lemma LifeSeen(first: Face, birth: Day, before: seq<Change>, c: Change, day: Day)
    requires Chronological(birth, before + [c])
    ensures var rows := Life(first, birth, before);
            Seen(Life(first, birth, before + [c]), day) ==
              SeenAfter(c, day, Seen(rows, day), Seen(rows, c.start), Seen(rows, c.start - 1))
  {
    assert (before + [c])[..|before|] == before;
    LifeIsChronicle(first, birth, before, c.start - 1);
    CurrentIsLast(Life(first, birth, before), Horizon(birth, before), c.start);
    ChangeSeen(Life(first, birth, before), Horizon(birth, before), c, day);
  }

  lemma NameChangeKeepsChronicle(rows: seq<Row>, horizon: Day, name: Name, start: Day, end: Option<Day>)
    requires Chronicle(rows, horizon) && horizon < start && (end.Some? ==> start <= end.value)
    ensures Chronicle(NameChanged(rows, name, start, end), if end.Some? then end.value else start - 1)
  {
    NameChangeKeepsBounded(rows, horizon, name, start, end);
    NameChangeHands(rows, horizon, name, start, end);
  }

  lemma CurrentIsLast(rows: seq<Row>, horizon: Day, day: Day)
    requires Chronicle(rows, horizon) && day > horizon
    ensures Seen(rows, day) == Some(Face(CurrentRow(rows).code, CurrentRow(rows).name))
  {
    CurrentCovers(rows, horizon, day);
  }

  // ---------------------------------------------------------------- changes out of order

  predicate StartsInside(r: Row, start: Day, end: Option<Day>) {
    start < r.validFrom && (end.Some? ==> r.validFrom <= end.value) && (r.validTo.Some? ==> r.validFrom <= r.validTo.value)
  }

  predicate Lasts(day: Day, start: Day, end: Option<Day>) {
    start <= day && (end.Some? ==> day <= end.value)
  }

  /** Whatever the store: the row of a new name is what readers see on all its days exactly when no stored interval
      starts inside them. */
  lemma NameHoldsThroughout(rows: seq<Row>, name: Name, start: Day, end: Option<Day>)
    requires rows != [] && Numbered(rows)
    ensures var closed := ClosedBefore(rows, start);
            var n := CurrentRow(closed).(name := name, validFrom := start, validTo := end, version := |closed| + 1);
            (forall day :: Lasts(day, start, end) ==> Covering(NameChanged(rows, name, start, end), day) == Some(n))
            <==> (forall r :: r in rows ==> !StartsInside(r, start, end))
  {
    var closed := ClosedBefore(rows, start);
    var n := CurrentRow(closed).(name := name, validFrom := start, validTo := end, version := |closed| + 1);
    VersionsCount(rows);
    VersionsCount(closed);
    CoveringIsGreatest(rows, start - 1);
    forall day | Lasts(day, start, end)
      ensures Covering(NameChanged(rows, name, start, end), day) == Covering(closed + [n], day)
    {
      if end.Some? {
        CoveringOfAppended(closed + [n], NameChanged(rows, name, start, end)[|closed| + 1], day);
      }
    }
    if forall r :: r in rows ==> !StartsInside(r, start, end) {
      forall day | Lasts(day, start, end) ensures Covering(closed + [n], day) == Some(n) {
        CoveringIsGreatest(closed, day);
        CoveringOfAppended(closed, n, day);
      }
    } else {
      var r :| r in rows && StartsInside(r, start, end);
      assert r in closed;
      CoveringIsGreatest(closed, r.validFrom);
      CoveringOfAppended(closed, n, r.validFrom);
      assert Lasts(r.validFrom, start, end);
    }
  }

  function Newer(best: Option<Row>, r: Row): Option<Row> {
    if best.None? || Precedes(best.value, r) then Some(r) else best
  }

  /** From its start on the row of a new code competes with all rows but the closed copy. */
  lemma CodeChangeCovers(rows: seq<Row>, code: Code, start: Day, day: Day)
    requires rows != [] && Numbered(rows) && start <= day
    ensures var n := CurrentRow(rows).(code := code, validFrom := start, validTo := None, version := |rows| + 2);
            Covering(CodeChanged(rows, code, start), day) == Newer(Covering(rows, day), n)
  {
    var copy := CurrentRow(rows).(validTo := Some(start - 1), version := |rows| + 1);
    var n := CurrentRow(rows).(code := code, validFrom := start, validTo := None, version := |rows| + 2);
    VersionsCount(rows);
    VersionsCount(rows + [copy]);
    CoveringOfAppended(rows, copy, day);
    CoveringOfAppended(rows + [copy], n, day);
  }

  lemma InsideIsSeen(rows: seq<Row>, n: Row, r: Row)
    requires Numbered(rows) && r in rows && StartsInside(r, n.validFrom, None)
    ensures Newer(Covering(rows, r.validFrom), n) != Some(n)
  {
    CoveringIsGreatest(rows, r.validFrom);
  }

  lemma NothingInsideIsSeen(rows: seq<Row>, n: Row, day: Day)
    requires Numbered(rows) && n.version > |rows| && n.validFrom <= day
    requires forall r :: r in rows ==> !StartsInside(r, n.validFrom, None)
    ensures Newer(Covering(rows, day), n) == Some(n)
  {
    CoveringIsGreatest(rows, day);
  }

  /** Whatever the store: the row of a new code is what readers see from its start on exactly when no stored interval
      starts after it. */
  lemma CodeHoldsThroughout(rows: seq<Row>, code: Code, start: Day)
    requires rows != [] && Numbered(rows)
    ensures var n := CurrentRow(rows).(code := code, validFrom := start, validTo := None, version := |rows| + 2);
            (forall day :: start <= day ==> Covering(CodeChanged(rows, code, start), day) == Some(n))
            <==> (forall r :: r in rows ==> !StartsInside(r, start, None))
  {
    var n := CurrentRow(rows).(code := code, validFrom := start, validTo := None, version := |rows| + 2);
    if r :| r in rows && StartsInside(r, start, None) {
      CodeChangeCovers(rows, code, start, r.validFrom);
      InsideIsSeen(rows, n, r);
    } else {
      forall day | start <= day ensures Covering(CodeChanged(rows, code, start), day) == Some(n) {
        CodeChangeCovers(rows, code, start, day);
        NothingInsideIsSeen(rows, n, day);
      }
    }
  }

  /** A code change dated inside a bounded name: from its date to the end of that name readers see the resumed name
      instead, and after the end they see the old code again. */
  lemma CodeChangeInsideBoundedName(first: Face, birth: Day, name: Name, start: Day, end: Day, code: Code, t: Day, day: Day)
    requires birth < start < t <= end && t <= day
    ensures Seen(CodeChanged(Life(first, birth, [Renamed(name, start, Some(end))]), code, t), day) ==
              Some(if day <= end then Face(code, first.name) else first)
  {
    var c := Renamed(name, start, Some(end));
    var r1 := Row(first.code, first.name, birth, None, 1);
    var r2 := r1.(validTo := Some(start - 1), version := 2);
    var r3 := Row(first.code, name, start, Some(end), 3);
    var r4 := Row(first.code, first.name, end + 1, None, 4);
    var rows := [r1, r2, r3, r4];
    LifeStart(first, birth, name, start, end, r1, r2, r3, r4);
    CurrentOfFour(r1, r2, r3, r4);
    var r5 := r4.(validTo := Some(t - 1), version := 5);
    var r6 := Row(code, first.name, t, None, 6);
    AppendTo(rows, r5);
    AppendTo(rows + [r5], r6);
    CoveringIsGreatest(rows, day);
    CoveringOfAppended(rows, r5, day);
    CoveringOfAppended(rows + [r5], r6, day);
    assert r4 in rows;
  }

  lemma CurrentOfFour(r1: Row, r2: Row, r3: Row, r4: Row)
    requires r1.validTo.None? && r4.validTo.None? && r2.validTo.Some? && r3.validTo.Some? && Precedes(r1, r4)
    ensures GreatestOpen([r1, r2, r3, r4]) == Some(r4)
  {
    OpenOfAppended([], r1);
    OpenOfAppended([r1], r2);
    OpenOfAppended([r1, r2], r3);
    OpenOfAppended([r1, r2, r3], r4);
    assert [] + [r1] == [r1] && [r1] + [r2] == [r1, r2] && [r1, r2] + [r3] == [r1, r2, r3];
    assert [r1, r2, r3] + [r4] == [r1, r2, r3, r4];
  }

  lemma LifeStart(first: Face, birth: Day, name: Name, start: Day, end: Day, r1: Row, r2: Row, r3: Row, r4: Row)
    requires birth < start <= end && r1 == Row(first.code, first.name, birth, None, 1)
    requires r2 == r1.(validTo := Some(start - 1), version := 2) && r3 == Row(first.code, name, start, Some(end), 3)
    requires r4 == Row(first.code, first.name, end + 1, None, 4)
    ensures Life(first, birth, [Renamed(name, start, Some(end))]) == [r1, r2, r3, r4]
  {
    var c := Renamed(name, start, Some(end));
    assert [c][..0] == [] && Life(first, birth, []) == [r1];
    FirstClosing(r1, r2, start);
    AppendTo([r1, r2], r3);
    AppendTo([r1, r2, r3], r4);
    assert [r1, r2] + [r3] == [r1, r2, r3] && [r1, r2, r3] + [r4] == [r1, r2, r3, r4];
  }

  lemma FirstClosing(r1: Row, r2: Row, start: Day)
    requires r1.version == 1 && r1.validTo.None? && r1.validFrom < start
    requires r2 == r1.(validTo := Some(start - 1), version := 2)
    ensures ClosedBefore([r1], start) == [r1, r2] && CurrentRow([r1, r2]) == r1 && NameBefore([r1], start) == r1.name
  {
    assert [] + [r1] == [r1] && [r1] + [r2] == [r1, r2];
    CoveringOfAppended([], r1, start - 1);
    OpenOfAppended([], r1);
    OpenOfAppended([r1], r2);
    AppendTo([r1], r2);
  }

  lemma AppendTo(rows: seq<Row>, r: Row)
    requires Numbered(rows) && r.version == |rows| + 1
    ensures forall q: Row :: q.(version := r.version) == r ==> Appended(rows, q) == rows + [r]
  {
    VersionsCount(rows);
  }

  // ---------------------------------------------------------------- resolving codes

  /** `e` is the newest version of its entry and counts on `day`; without a day every entry counts. */
  predicate Counts(codes: seq<Entry>, e: Entry, code: Code, day: Option<Day>) {
    e.code == code && Newest(codes, |codes|, e) == Some(e) && (day.Some? ==> InForce(e, day.value))
  }

  /** Latest start first, then highest version; equals keep their order. */
  predicate Ahead(a: Entry, b: Entry) {
    a.validFrom > b.validFrom || (a.validFrom == b.validFrom && a.version > b.version)
  }

  function Placed(sorted: seq<Entry>, e: Entry): (r: seq<Entry>)
    ensures forall x {:trigger x in r} :: x in r <==> x == e || x in sorted
  {
    if sorted == [] then [e]
    else if Ahead(e, sorted[0]) then [e] + sorted
    else
      assert sorted == [sorted[0]] + sorted[1..];
      [sorted[0]] + Placed(sorted[1..], e)
  }

  predicate Descending(s: seq<Entry>) {
    forall i, j {:trigger s[i], s[j]} :: 0 <= i < j < |s| ==> !Ahead(s[j], s[i])
  }

  lemma {:induction false} PlacedDescends(s: seq<Entry>, e: Entry)
    requires Descending(s)
    ensures Descending(Placed(s, e))
  {
    if s != [] && !Ahead(e, s[0]) {
      PlacedDescends(s[1..], e);
      var rest := Placed(s[1..], e);
      forall j | 0 <= j < |rest| ensures !Ahead(rest[j], s[0]) {
        assert rest[j] in rest;
        if rest[j] != e {
          var k :| 0 <= k < |s[1..]| && s[1..][k] == rest[j];
          assert !Ahead(s[k + 1], s[0]);
        }
      }
    }
  }

  /** `newest` lists the newest versions of the entries for `code` among the first `n`, one for each key. */
  ghost predicate Lists(newest: seq<Entry>, codes: seq<Entry>, n: nat, code: Code)
    requires n <= |codes|
  {
    && (forall i {:trigger newest[i]} :: 0 <= i < |newest| ==> newest[i].code == code && Newest(codes, n, newest[i]) == Some(newest[i]))
    && (forall i, j {:trigger newest[i], newest[j]} :: 0 <= i < j < |newest| ==> !SameKey(newest[i], newest[j]))
    && (forall e: Entry {:trigger Newest(codes, n, e)} :: e.code == code && Newest(codes, n, e) == Some(e) ==> e in newest)
  }

  function Find(newest: seq<Entry>, e: Entry): (i: nat)
    ensures i <= |newest| && (i < |newest| ==> SameKey(newest[i], e))
    ensures forall j :: 0 <= j < i ==> !SameKey(newest[j], e)
  {
    if newest == [] || SameKey(newest[0], e) then 0 else 1 + Find(newest[1..], e)
  }

  lemma {:induction false} NewestIsOne(codes: seq<Entry>, n: nat, key: Entry, other: Entry)
    requires n <= |codes|
    ensures Newest(codes, n, key).Some? ==> SameKey(Newest(codes, n, key).value, key)
    ensures SameKey(key, other) ==> Newest(codes, n, key) == Newest(codes, n, other)
    decreases n
  {
    if n > 0 {
      NewestIsOne(codes, n - 1, key, other);
    }
  }

  /** Reading one entry more: what `Resolve` does with it keeps the list. */
  function Noted(newest: seq<Entry>, e: Entry, code: Code): seq<Entry> {
    var i := Find(newest, e);
    if e.code != code then newest
    else if i == |newest| then newest + [e]
    else if e.version > newest[i].version then newest[i := e]
    else newest
  }

  lemma ListsOneMore(newest: seq<Entry>, codes: seq<Entry>, n: nat, code: Code)
    requires n < |codes| && Lists(newest, codes, n, code)
    ensures Lists(Noted(newest, codes[n], code), codes, n + 1, code)
  {
    var e, after := codes[n], Noted(newest, codes[n], code);
    if e.code == code {
      NewestPlace(newest, codes, n, code, e);
    }
    forall k | 0 <= k < |after| ensures after[k].code == code && Newest(codes, n + 1, after[k]) == Some(after[k]) {
      NewestIsOne(codes, n, e, after[k]);
      assert k < |newest| ==> Newest(codes, n, newest[k]) == Some(newest[k]);
    }
    forall x: Entry | x.code == code && Newest(codes, n + 1, x) == Some(x) ensures x in after {
      NotedHolds(newest, codes, n, code, x);
    }
  }

  lemma NotedKeeps(newest: seq<Entry>, e: Entry, code: Code, k: nat)
    requires k < |newest|
    ensures newest[k] in Noted(newest, e, code) || (SameKey(newest[k], e) && e.version > newest[k].version && e.code == code)
  {
    var after := Noted(newest, e, code);
    assert k < |after| && after[k] in after;
  }

  lemma NotedHolds(newest: seq<Entry>, codes: seq<Entry>, n: nat, code: Code, x: Entry)
    requires n < |codes| && Lists(newest, codes, n, code) && x.code == code && Newest(codes, n + 1, x) == Some(x)
    ensures x in Noted(newest, codes[n], code)
  {
    var e, after := codes[n], Noted(newest, codes[n], code);
    var i := Find(newest, e);
    NewestIsOne(codes, n, e, x);
    if e.code == code {
      NewestPlace(newest, codes, n, code, e);
      assert i < |newest| ==> newest[i] in newest;
    }
    if Newest(codes, n, x) == Some(x) {
      var k :| 0 <= k < |newest| && newest[k] == x;
      NotedKeeps(newest, e, code, k);
    } else {
      assert x == e && SameKey(e, x);
      assert after[if i == |newest| then |newest| else i] == e;
    }
  }

  /** The place of `e`'s key in the list holds the newest version so far. */
  lemma NewestPlace(newest: seq<Entry>, codes: seq<Entry>, n: nat, code: Code, e: Entry)
    requires n <= |codes| && Lists(newest, codes, n, code) && e.code == code
    ensures var i := Find(newest, e);
            Newest(codes, n, e) == if i == |newest| then None else Some(newest[i])
  {
    var i := Find(newest, e);
    NewestIsOne(codes, n, e, e);
    if i < |newest| {
      NewestIsOne(codes, n, e, newest[i]);
    }
    forall x: Entry | Newest(codes, n, e) == Some(x) ensures x in newest && SameKey(x, e) {
      NewestIsOne(codes, n, e, x);
    }
  }

  method NewestEntries(codes: seq<Entry>, code: Code) returns (newest: seq<Entry>)
    ensures Lists(newest, codes, |codes|, code)
  {
    newest := [];
    for n := 0 to |codes|
      invariant Lists(newest, codes, n, code)
    {
      ListsOneMore(newest, codes, n, code);
      newest := Noted(newest, codes[n], code);
    }
  }

  method Ranked(entries: seq<Entry>) returns (sorted: seq<Entry>)
    ensures Descending(sorted) && forall x {:trigger x in sorted} :: x in sorted <==> x in entries
  {
    sorted := [];
    for i := 0 to |entries|
      invariant Descending(sorted) && forall x {:trigger x in sorted} :: x in sorted <==> x in entries[..i]
    {
      PlacedDescends(sorted, entries[i]);
      assert entries[..i + 1] == entries[..i] + [entries[i]];
      sorted := Placed(sorted, entries[i]);
    }
    assert entries[..|entries|] == entries;
  }

  /** The entity of a counting entry, the latest start first and then the highest version; none when nothing counts. */
  ghost predicate ResolvesTo(codes: seq<Entry>, code: Code, day: Option<Day>, entity: Option<Entity>) {
    match entity
    case None => forall e :: !Counts(codes, e, code, day)
    case Some(id) =>
      exists e :: Counts(codes, e, code, day) && e.entity == id &&
        forall f :: Counts(codes, f, code, day) ==>
          f.validFrom < e.validFrom || (f.validFrom == e.validFrom && f.version <= e.version)
  }

  /** The canonical or historical `code` on `day`: an entity whose newest entry counts then, the latest start first. */
  method Resolve(codes: seq<Entry>, code: Code, day: Option<Day>) returns (entity: Option<Entity>)
    ensures ResolvesTo(codes, code, day, entity)
  {
    var newest := NewestEntries(codes, code);
    var sorted := Ranked(newest);
    assert forall e :: Counts(codes, e, code, day) ==> e in sorted;
    for i := 0 to |sorted|
      invariant forall k {:trigger sorted[k]} :: 0 <= k < i ==> !Counts(codes, sorted[k], code, day)
    {
      var e := sorted[i];
      assert e in sorted;
      if day.None? || InForce(e, day.value) {
        assert Counts(codes, e, code, day);
        return Some(e.entity);
      }
    }
    entity := None;
  }

  // ---------------------------------------------------------------- codes over whole runs

  datatype Adoption = Adoption(code: Code, start: Day)

  datatype CodeEvent = Registered(entity: Entity, code: Code, start: Day) | CodeChange(entity: Entity, code: Code, start: Day)

  /** The store, and beside it which codes each entity has held since when. */
  datatype Book = Book(codes: seq<Entry>, held: map<Entity, seq<Adoption>>)

  /** A new entity, or a change dated no earlier than the entity's last one to a code not adopted from that day already. */
  predicate InSequence(b: Book, e: CodeEvent) {
    match e
    case Registered(entity, _, _) => entity !in b.held
    case CodeChange(entity, code, start) =>
      && entity in b.held && b.held[entity] != [] && b.held[entity][|b.held[entity]| - 1].start <= start
      && Adoption(code, start) !in b.held[entity]
  }

  function Record(b: Book, e: CodeEvent): Book {
    match e
    case Registered(entity, code, start) =>
      Book(b.codes + [Entry(entity, code, start, None, 1)], b.held[entity := [Adoption(code, start)]])
    case CodeChange(entity, code, start) =>
      Book(Adopted(b.codes, entity, code, start),
           b.held[entity := (if entity in b.held then b.held[entity] else []) + [Adoption(code, start)]])
  }

  function Recorded(events: seq<CodeEvent>): Book {
    if events == [] then Book([], map[]) else Record(Recorded(events[..|events| - 1]), events[|events| - 1])
  }

  predicate Sequential(events: seq<CodeEvent>) {
    events != [] ==>
      Sequential(events[..|events| - 1]) && InSequence(Recorded(events[..|events| - 1]), events[|events| - 1])
  }

  /** The entry that adoption `i` of an entity must have as its newest version. */
  function Due(entity: Entity, adoptions: seq<Adoption>, i: nat): Entry
    requires i < |adoptions|
  {
    var a := adoptions[i];
    if i + 1 < |adoptions| then Entry(entity, a.code, a.start, Some(adoptions[i + 1].start - 1), 2)
    else Entry(entity, a.code, a.start, None, 1)
  }

  predicate Rising(adoptions: seq<Adoption>) {
    forall i, j {:trigger adoptions[i], adoptions[j]} :: 0 <= i < j < |adoptions| ==> adoptions[i].start <= adoptions[j].start
  }

  predicate Belongs(e: Entry, adoptions: seq<Adoption>) {
    exists i :: 0 <= i < |adoptions| && adoptions[i] == Adoption(e.code, e.validFrom)
  }

  /** Open entries are first versions, closed ones second versions; every entry belongs to an adoption, and the
      newest version of every adoption is the one due. */
  ghost predicate Kept(b: Book) {
    && (forall j {:trigger b.codes[j]} :: 0 <= j < |b.codes| ==>
          && b.codes[j].entity in b.held && Belongs(b.codes[j], b.held[b.codes[j].entity])
          && b.codes[j].version == (if b.codes[j].validTo.None? then 1 else 2))
    && (forall e {:trigger b.held[e]} :: e in b.held ==> b.held[e] != [] && Rising(b.held[e]))
    && (forall e, i {:trigger Due(e, b.held[e], i)} :: e in b.held && 0 <= i < |b.held[e]| ==>
          Newest(b.codes, |b.codes|, Due(e, b.held[e], i)) == Some(Due(e, b.held[e], i)))
  }

  lemma {:induction false} NewestOfPrefix(a: seq<Entry>, b: seq<Entry>, n: nat, key: Entry)
    requires n <= |a|
    ensures Newest(a + b, n, key) == Newest(a, n, key)
  {
    if n > 0 {
      NewestOfPrefix(a, b, n - 1, key);
    }
  }

  lemma NewestOfAppended(codes: seq<Entry>, e: Entry, key: Entry)
    ensures Newest(codes + [e], |codes| + 1, key) ==
              var best := Newest(codes, |codes|, key);
              if SameKey(e, key) && (best.None? || best.value.version < e.version) then Some(e) else best
  {
    NewestOfPrefix(codes, [e], |codes|, key);
  }

  lemma {:induction false} NewestIsStored(codes: seq<Entry>, n: nat, key: Entry)
    requires n <= |codes|
    ensures Newest(codes, n, key).Some? ==> Newest(codes, n, key).value in codes[..n]
    ensures Newest(codes, n, key).None? ==> forall j :: 0 <= j < n ==> !SameKey(codes[j], key)
    ensures forall j :: 0 <= j < n && SameKey(codes[j], key) ==> Newest(codes, n, key).Some? && codes[j].version <= Newest(codes, n, key).value.version
  {
    if n > 0 {
      NewestIsStored(codes, n - 1, key);
      assert codes[..n] == codes[..n - 1] + [codes[n - 1]];
    }
  }

  predicate OpensFirst(codes: seq<Entry>) {
    forall j {:trigger codes[j]} :: 0 <= j < |codes| ==> codes[j].version == (if codes[j].validTo.None? then 1 else 2)
  }

  predicate OpenAmong(codes: seq<Entry>, n: nat, key: Entry)
    requires n <= |codes|
  {
    exists j :: 0 <= j < n && SameKey(codes[j], key) && codes[j].validTo.None?
  }

  lemma OpenStays(codes: seq<Entry>, n: nat, key: Entry)
    requires 0 < n <= |codes| && !(SameKey(codes[n - 1], key) && codes[n - 1].validTo.None?)
    ensures OpenAmong(codes, n, key) <==> OpenAmong(codes, n - 1, key)
  {
  }

  /** The tie rule at work: of all the closed copies of an open entry the first one counts. */
  lemma {:induction false} NewestOfReclosed(codes: seq<Entry>, n: nat, entity: Entity, before: Day, key: Entry)
    requires n <= |codes| && OpensFirst(codes)
    ensures var best, all := Newest(codes, |codes|, key), codes + Reclosed(codes, n, entity, before);
            Newest(all, |all|, key) ==
              if best.Some? && best.value.validTo.None? && key.entity == entity && OpenAmong(codes, n, key)
              then Some(best.value.(validTo := Some(before), version := 2))
              else best
  {
    if n == 0 {
      assert codes + [] == codes;
    } else {
      var e, was := codes[n - 1], codes + Reclosed(codes, n - 1, entity, before);
      NewestOfReclosed(codes, n - 1, entity, before, key);
      NewestIsOne(codes, |codes|, key, key);
      NewestIsStored(codes, |codes|, key);
      if e.entity == entity && e.validTo.None? {
        var copy := e.(validTo := Some(before), version := e.version + 1);
        NewestOfAppended(was, copy, key);
        assert codes + Reclosed(codes, n, entity, before) == was + [copy];
        if SameKey(e, key) {
          assert OpenAmong(codes, n, key);
        } else {
          OpenStays(codes, n, key);
        }
      } else {
        assert codes + Reclosed(codes, n, entity, before) == was;
        if key.entity == entity {
          OpenStays(codes, n, key);
        }
      }
    }
  }

  lemma NewestOfAdopted(codes: seq<Entry>, entity: Entity, code: Code, start: Day, key: Entry)
    requires OpensFirst(codes)
    ensures var best, all := Newest(codes, |codes|, key), Adopted(codes, entity, code, start);
            var closed := if best.Some? && best.value.validTo.None? && key.entity == entity
                          then Some(best.value.(validTo := Some(start - 1), version := 2)) else best;
            Newest(all, |all|, key) ==
              if SameKey(Entry(entity, code, start, None, 1), key) && closed.None? then Some(Entry(entity, code, start, None, 1))
              else closed
  {
    var all := codes + Reclosed(codes, |codes|, entity, start - 1);
    NewestOfReclosed(codes, |codes|, entity, start - 1, key);
    NewestIsStored(codes, |codes|, key);
    NewestIsOne(codes, |codes|, key, key);
    assert codes[..|codes|] == codes;
    NewestOfAppended(all, Entry(entity, code, start, None, 1), key);
    var best := Newest(codes, |codes|, key);
    if best.Some? && best.value.validTo.None? {
      var j :| 0 <= j < |codes| && codes[j] == best.value;
      assert OpenAmong(codes, |codes|, key);
    }
    NewestVersions(codes, entity, start, key);
  }

  lemma NewestVersions(codes: seq<Entry>, entity: Entity, start: Day, key: Entry)
    requires OpensFirst(codes)
    ensures Newest(codes, |codes|, key).Some? ==> 1 <= Newest(codes, |codes|, key).value.version
  {
    NewestIsStored(codes, |codes|, key);
    assert codes[..|codes|] == codes;
  }

  /** The entries a code change adds besides the new one are closed second versions of entries of the entity. */
  lemma {:induction false} ReclosedAre(codes: seq<Entry>, n: nat, entity: Entity, before: Day, e: Entry)
    requires n <= |codes| && OpensFirst(codes) && e in Reclosed(codes, n, entity, before)
    ensures e.entity == entity && e.version == 2 && e.validTo == Some(before)
    ensures exists j :: 0 <= j < |codes| && SameKey(codes[j], e)
  {
    var c := codes[n - 1];
    if e in Reclosed(codes, n - 1, entity, before) {
      ReclosedAre(codes, n - 1, entity, before, e);
    } else {
      assert SameKey(c, e);
    }
  }

  lemma RegisteringKeeps(b: Book, entity: Entity, code: Code, start: Day)
    requires Kept(b) && entity !in b.held
    ensures Kept(Record(b, Registered(entity, code, start)))
  {
    var b' := Record(b, Registered(entity, code, start));
    var first := Entry(entity, code, start, None, 1);
    forall e, i | e in b'.held && 0 <= i < |b'.held[e]|
      ensures Newest(b'.codes, |b'.codes|, Due(e, b'.held[e], i)) == Some(Due(e, b'.held[e], i))
    {
      var key := Due(e, b'.held[e], i);
      NewestOfAppended(b.codes, first, key);
      if e == entity {
        NewestIsStored(b.codes, |b.codes|, key);
        NewestIsOne(b.codes, |b.codes|, key, key);
        assert b.codes[..|b.codes|] == b.codes;
      } else {
        assert key == Due(e, b.held[e], i);
      }
    }
    forall j | 0 <= j < |b'.codes| ensures b'.codes[j].entity in b'.held && Belongs(b'.codes[j], b'.held[b'.codes[j].entity]) {
      if j < |b.codes| {
        assert b'.codes[j] == b.codes[j];
      } else {
        assert b'.held[entity][0] == Adoption(code, start);
      }
    }
  }

  lemma BelongsLater(e: Entry, adoptions: seq<Adoption>, a: Adoption)
    requires Belongs(e, adoptions)
    ensures Belongs(e, adoptions + [a])
  {
    var i :| 0 <= i < |adoptions| && adoptions[i] == Adoption(e.code, e.validFrom);
    assert (adoptions + [a])[i] == adoptions[i];
  }

  lemma ChangeKeepsEntries(b: Book, entity: Entity, code: Code, start: Day)
    requires Kept(b) && entity in b.held
    ensures var b' := Record(b, CodeChange(entity, code, start));
            forall j {:trigger b'.codes[j]} :: 0 <= j < |b'.codes| ==>
              && b'.codes[j].entity in b'.held && Belongs(b'.codes[j], b'.held[b'.codes[j].entity])
              && b'.codes[j].version == (if b'.codes[j].validTo.None? then 1 else 2)
  {
    var b' := Record(b, CodeChange(entity, code, start));
    var copies := Reclosed(b.codes, |b.codes|, entity, start - 1);
    var a := Adoption(code, start);
    assert OpensFirst(b.codes);
    forall j | 0 <= j < |b'.codes|
      ensures b'.codes[j].entity in b'.held && Belongs(b'.codes[j], b'.held[b'.codes[j].entity])
      ensures b'.codes[j].version == (if b'.codes[j].validTo.None? then 1 else 2)
    {
      var e := b'.codes[j];
      if j < |b.codes| {
        assert e == b.codes[j];
        if e.entity == entity {
          BelongsLater(e, b.held[entity], a);
        }
      } else if j < |b.codes| + |copies| {
        assert e == copies[j - |b.codes|];
        ReclosedAre(b.codes, |b.codes|, entity, start - 1, e);
        var k :| 0 <= k < |b.codes| && SameKey(b.codes[k], e);
        assert Belongs(b.codes[k], b.held[entity]);
        BelongsLater(b.codes[k], b.held[entity], a);
      } else {
        assert b'.held[entity][|b.held[entity]|] == a;
      }
    }
  }

  lemma ChangeKeepsDue(b: Book, entity: Entity, code: Code, start: Day, e: Entity, i: nat)
    requires Kept(b) && InSequence(b, CodeChange(entity, code, start))
    requires var b' := Record(b, CodeChange(entity, code, start)); e in b'.held && i < |b'.held[e]|
    ensures var b' := Record(b, CodeChange(entity, code, start));
            Newest(b'.codes, |b'.codes|, Due(e, b'.held[e], i)) == Some(Due(e, b'.held[e], i))
  {
    var b' := Record(b, CodeChange(entity, code, start));
    var key := Due(e, b'.held[e], i);
    assert OpensFirst(b.codes);
    NewestOfAdopted(b.codes, entity, code, start, key);
    if e != entity {
      assert key == Due(e, b.held[e], i);
    } else if i < |b.held[e]| {
      var was := Due(e, b.held[e], i);
      assert Newest(b.codes, |b.codes|, was) == Some(was);
      assert SameKey(was, key);
      NewestIsOne(b.codes, |b.codes|, was, key);
      assert i + 1 < |b.held[e]| ==> b'.held[e][i + 1] == b.held[e][i + 1];
    } else {
      NoEntryYet(b, entity, code, start, key);
    }
  }

  lemma NoEntryYet(b: Book, entity: Entity, code: Code, start: Day, key: Entry)
    requires Kept(b) && InSequence(b, CodeChange(entity, code, start)) && key == Entry(entity, code, start, None, 1)
    ensures Newest(b.codes, |b.codes|, key).None?
  {
    NewestIsStored(b.codes, |b.codes|, key);
    NewestIsOne(b.codes, |b.codes|, key, key);
    assert b.codes[..|b.codes|] == b.codes;
    forall j | 0 <= j < |b.codes| ensures !SameKey(b.codes[j], key) {
      if b.codes[j].entity == entity {
        var k :| 0 <= k < |b.held[entity]| && b.held[entity][k] == Adoption(b.codes[j].code, b.codes[j].validFrom);
      }
    }
  }

  lemma {:induction false} AlwaysKept(events: seq<CodeEvent>)
    requires Sequential(events)
    ensures Kept(Recorded(events))
  {
    if events != [] {
      var b, e := Recorded(events[..|events| - 1]), events[|events| - 1];
      AlwaysKept(events[..|events| - 1]);
      match e
      case Registered(entity, code, start) => RegisteringKeeps(b, entity, code, start);
      case CodeChange(entity, code, start) =>
        var b' := Record(b, e);
        ChangeKeepsEntries(b, entity, code, start);
        forall x, i | x in b'.held && 0 <= i < |b'.held[x]|
          ensures Newest(b'.codes, |b'.codes|, Due(x, b'.held[x], i)) == Some(Due(x, b'.held[x], i))
        {
          ChangeKeepsDue(b, entity, code, start, x, i);
        }
    }
  }

  /** `entity` went by `code` on `day`. */
  ghost predicate HeldOn(b: Book, entity: Entity, code: Code, day: Day) {
    entity in b.held && exists i :: 0 <= i < |b.held[entity]| && HeldThen(b.held[entity], i, code, day)
  }

  predicate HeldThen(adoptions: seq<Adoption>, i: nat, code: Code, day: Day)
    requires i < |adoptions|
  {
    && adoptions[i].code == code && adoptions[i].start <= day
    && (i + 1 < |adoptions| ==> day < adoptions[i + 1].start)
  }

  /** The codes an entity adopted, and from when, in the order of the events. */
  function AdoptedBy(events: seq<CodeEvent>, entity: Entity): seq<Adoption> {
    if events == [] then []
    else
      var e := events[|events| - 1];
      AdoptedBy(events[..|events| - 1], entity) + (if e.entity == entity then [Adoption(e.code, e.start)] else [])
  }

  /** The code of the last adoption dated no later than the day. */
  ghost predicate WentBy(events: seq<CodeEvent>, entity: Entity, code: Code, day: Day) {
    var all := AdoptedBy(events, entity);
    exists i: nat :: LastBy(all, i, code, day)
  }

  lemma {:induction false} HeldIsAdopted(events: seq<CodeEvent>, entity: Entity)
    requires Sequential(events)
    ensures var b := Recorded(events);
            (if entity in b.held then b.held[entity] else []) == AdoptedBy(events, entity)
  {
    if events != [] {
      HeldIsAdopted(events[..|events| - 1], entity);
    }
  }

  /** Adoption `i` is the last one dated no later than the day. */
  ghost predicate LastBy(all: seq<Adoption>, i: nat, code: Code, day: Day) {
    i < |all| && all[i].code == code && all[i].start <= day && forall j :: i < j < |all| ==> day < all[j].start
  }

  lemma HeldThenIsLast(all: seq<Adoption>, i: nat, code: Code, day: Day)
    requires Rising(all) && i < |all|
    ensures HeldThen(all, i, code, day) <==> LastBy(all, i, code, day)
  {
  }

  lemma HeldMeansWentBy(events: seq<CodeEvent>, entity: Entity, code: Code, day: Day)
    requires Sequential(events)
    ensures HeldOn(Recorded(events), entity, code, day) <==> WentBy(events, entity, code, day)
  {
    AlwaysKept(events);
    HeldIsAdopted(events, entity);
    var all := AdoptedBy(events, entity);
    if i :| 0 <= i < |all| && HeldThen(all, i, code, day) {
      HeldThenIsLast(all, i, code, day);
    }
    if i: nat :| LastBy(all, i, code, day) {
      HeldThenIsLast(all, i, code, day);
    }
  }

  lemma CountsInBook(events: seq<CodeEvent>, entity: Entity, code: Code, day: Day)
    requires Sequential(events)
    ensures var b := Recorded(events);
            (exists e :: Counts(b.codes, e, code, Some(day)) && e.entity == entity) <==> HeldOn(b, entity, code, day)
  {
    AlwaysKept(events);
    var b := Recorded(events);
    if HeldOn(b, entity, code, day) {
      var i :| 0 <= i < |b.held[entity]| && HeldThen(b.held[entity], i, code, day);
      assert Counts(b.codes, Due(entity, b.held[entity], i), code, Some(day));
    }
    forall e | Counts(b.codes, e, code, Some(day)) && e.entity == entity ensures HeldOn(b, entity, code, day) {
      NewestIsStored(b.codes, |b.codes|, e);
      assert b.codes[..|b.codes|] == b.codes;
      var j :| 0 <= j < |b.codes| && b.codes[j] == e;
      var i :| 0 <= i < |b.held[entity]| && b.held[entity][i] == Adoption(e.code, e.validFrom);
      NewestIsOne(b.codes, |b.codes|, e, Due(entity, b.held[entity], i));
      assert HeldThen(b.held[entity], i, code, day);
    }
  }

  /** After any run, entity by entity in order of time, an entry counts on a day exactly when its entity went by the
      code on that day: when that was the last code it had adopted by then. */
  lemma CountsMeansHeld(events: seq<CodeEvent>, entity: Entity, code: Code, day: Day)
    requires Sequential(events)
    ensures (exists e :: Counts(Recorded(events).codes, e, code, Some(day)) && e.entity == entity) <==>
              WentBy(events, entity, code, day)
  {
    CountsInBook(events, entity, code, day);
    HeldMeansWentBy(events, entity, code, day);
  }

  /** What `Resolve` returns after such a run: someone who went by the code on the day, nobody only when nobody did,
      and the one who did when there was just one. */
  lemma ResolveFollowsHistory(events: seq<CodeEvent>, code: Code, day: Day, result: Option<Entity>)
    requires Sequential(events) && ResolvesTo(Recorded(events).codes, code, Some(day), result)
    ensures result.Some? ==> WentBy(events, result.value, code, day)
    ensures result.None? <==> forall entity: Entity :: !WentBy(events, entity, code, day)
    ensures forall entity: Entity ::
              WentBy(events, entity, code, day) && (forall other: Entity :: WentBy(events, other, code, day) ==> other == entity) ==>
                result == Some(entity)
  {
    if result.Some? {
      CountsMeansHeld(events, result.value, code, day);
    } else {
      forall entity: Entity ensures !WentBy(events, entity, code, day) {
        CountsMeansHeld(events, entity, code, day);
      }
    }
  }

  /** Whatever the history: a newly adopted code counts from its start on exactly when the entity has no entry for that
      code from that day. */
  lemma NewCodeCounts(codes: seq<Entry>, entity: Entity, code: Code, start: Day, day: Day)
    requires OpensFirst(codes) && start <= day
    ensures var e := Entry(entity, code, start, None, 1);
            Counts(Adopted(codes, entity, code, start), e, code, Some(day)) <==>
              forall j :: 0 <= j < |codes| ==> !SameKey(codes[j], e)
  {
    var e := Entry(entity, code, start, None, 1);
    NewestOfAdopted(codes, entity, code, start, e);
    NewestIsStored(codes, |codes|, e);
    NewestIsOne(codes, |codes|, e, e);
    assert codes[..|codes|] == codes;
  }

  /** Two code changes on one day that end with the code the day began with: nothing resolves it any more. */
  lemma CodeReadoptedTheSameDay(entity: Entity, code: Code, other: Code, start: Day, day: Day)
    requires code != other && start <= day
    ensures var codes := Adopted(Adopted([Entry(entity, code, start, None, 1)], entity, other, start), entity, code, start);
            forall e :: !Counts(codes, e, code, Some(day))
  {
    var e1 := Entry(entity, code, start, None, 1);
    var e2 := Entry(entity, code, start, Some(start - 1), 2);
    var key := e1;
    assert Newest([e1], 0, key) == None && Newest([e1], 1, key) == Some(e1);
    NewestOfAdopted([e1], entity, other, start, key);
    var once := Adopted([e1], entity, other, start);
    assert Reclosed([e1], 1, entity, start - 1) == [e2];
    assert once == [e1, e2, Entry(entity, other, start, None, 1)];
    NewestOfAdopted(once, entity, code, start, key);
    var codes := Adopted(once, entity, code, start);
    assert Newest(codes, |codes|, key) == Some(e2);
    forall e ensures !Counts(codes, e, code, Some(day)) {
      if Counts(codes, e, code, Some(day)) {
        OnlyOneStart(entity, code, other, start, e);
        NewestIsOne(codes, |codes|, e, key);
      }
    }
  }

  lemma OnlyOneStart(entity: Entity, code: Code, other: Code, start: Day, e: Entry)
    requires var codes := Adopted(Adopted([Entry(entity, code, start, None, 1)], entity, other, start), entity, code, start);
             e.code == code && Newest(codes, |codes|, e) == Some(e)
    ensures SameKey(e, Entry(entity, code, start, None, 1))
  {
    var e1 := Entry(entity, code, start, None, 1);
    NewestOfAdopted([e1], entity, other, start, e);
    var once := Adopted([e1], entity, other, start);
    assert Reclosed([e1], 1, entity, start - 1) == [Entry(entity, code, start, Some(start - 1), 2)];
    assert once == [e1, Entry(entity, code, start, Some(start - 1), 2), Entry(entity, other, start, None, 1)];
    NewestOfAdopted(once, entity, code, start, e);
  }
}
