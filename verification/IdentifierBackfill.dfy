/** The script that backfills property_identifier from expedia_id and back. It plans all changes in
    one pass, guarding the identifiers that are already taken, and applies them one by one. */
module IdentifierBackfill {
  import opened Basics
  import opened Text

  datatype Row = Row(id: Id, identifier: Option<string>, expediaId: Option<int>)

  datatype Change = SetIdentifier(id: Id, identifier: string) | SetExpediaId(id: Id, expediaId: int)

  const INT32_MAX := 2147483647

  /** `toLowerCase`, whatever the letters. */
  type LowerCase = string -> string

  predicate IsBlank(text: Option<string>) {
    text == None || Trim(text.value) == ""
  }

  /** What makes two identifiers the same: trimmed and in lower case. */
  function KeyOf(identifier: string, lower: LowerCase): string {
    lower(Trim(identifier))
  }

  function Taken(rows: seq<Row>, lower: LowerCase): set<string> {
    set i | 0 <= i < |rows| && !IsBlank(rows[i].identifier) :: KeyOf(rows[i].identifier.value, lower)
  }

  predicate IsPlainInteger(s: string) {
    s != "" && AllDigits(s)
  }

  /** What the pass does with one row, given the identifiers taken so far. */
  datatype Verdict = BothPresent | BothMissing | Blocked | Planned(change: Change)

  function Judge(row: Row, taken: set<string>, lower: LowerCase): Verdict {
    var hasIdentifier := !IsBlank(row.identifier);
    var hasExpediaId := row.expediaId.Some?;
    if hasIdentifier && hasExpediaId then BothPresent
    else if !hasIdentifier && !hasExpediaId then BothMissing
    else if hasExpediaId then
      var identifier := IntToString(row.expediaId.value);
      if lower(identifier) in taken then Blocked else Planned(SetIdentifier(row.id, identifier))
    else
      var identifier := Trim(row.identifier.value);
      if !IsPlainInteger(identifier) then Blocked
      else if ParseNat(identifier) > INT32_MAX then Blocked
      else Planned(SetExpediaId(row.id, ParseNat(identifier)))
  }

  function AddedKeys(v: Verdict, lower: LowerCase): set<string> {
    if v.Planned? && v.change.SetIdentifier? then {lower(v.change.identifier)} else {}
  }

  /** The verdicts of the pass over the first `n` rows. */
  function Verdicts(rows: seq<Row>, n: nat, lower: LowerCase): (r: seq<Verdict>)
    requires n <= |rows|
    ensures |r| == n
  {
    if n == 0 then [] else Verdicts(rows, n - 1, lower) + [Judge(rows[n - 1], TakenAfter(rows, n - 1, lower), lower)]
  }

  /** The identifiers taken once `n` rows have been judged. */
  function TakenAfter(rows: seq<Row>, n: nat, lower: LowerCase): set<string>
    requires n <= |rows|
  {
    if n == 0 then Taken(rows, lower)
    else
      var before := TakenAfter(rows, n - 1, lower);
      before + AddedKeys(Judge(rows[n - 1], before, lower), lower)
  }

  function PlannedChanges(vs: seq<Verdict>): seq<Change> {
    if vs == [] then []
    else PlannedChanges(vs[..|vs| - 1]) + if vs[|vs| - 1].Planned? then [vs[|vs| - 1].change] else []
  }

  function Count(vs: seq<Verdict>, v: Verdict): nat {
    if vs == [] then 0 else Count(vs[..|vs| - 1], v) + if vs[|vs| - 1] == v then 1 else 0
  }

  datatype Report = Report(planned: seq<Change>, blocked: nat, bothPresent: nat, bothMissing: nat)

  /** What the verdict on row `n` adds to the plan, the counts and the taken identifiers. */
  lemma PassStep(rows: seq<Row>, n: nat, lower: LowerCase)
    requires n < |rows|
    ensures
      var v := Judge(rows[n], TakenAfter(rows, n, lower), lower);
      var before, after := Verdicts(rows, n, lower), Verdicts(rows, n + 1, lower);
      && TakenAfter(rows, n + 1, lower) == TakenAfter(rows, n, lower) + AddedKeys(v, lower)
      && PlannedChanges(after) == PlannedChanges(before) + (if v.Planned? then [v.change] else [])
      && forall w :: Count(after, w) == Count(before, w) + if v == w then 1 else 0
  {
    hide Judge, AddedKeys, Taken;
    assert Verdicts(rows, n + 1, lower)[..n] == Verdicts(rows, n, lower);
  }

  lemma EmptyPass(rows: seq<Row>, lower: LowerCase)
    ensures PlannedChanges(Verdicts(rows, 0, lower)) == []
    ensures forall w :: Count(Verdicts(rows, 0, lower), w) == 0
  {
  }

  /** The planning pass. Its four outcomes partition the rows. */
  method PlanChanges(rows: seq<Row>, lower: LowerCase) returns (r: Report)
    ensures r.planned == PlannedChanges(Verdicts(rows, |rows|, lower))
    ensures r.blocked == Count(Verdicts(rows, |rows|, lower), Blocked)
    ensures r.bothPresent == Count(Verdicts(rows, |rows|, lower), BothPresent)
    ensures r.bothMissing == Count(Verdicts(rows, |rows|, lower), BothMissing)
    ensures |r.planned| + r.blocked + r.bothPresent + r.bothMissing == |rows|
  {
    hide Taken, TakenAfter, Verdicts, PlannedChanges, Count, Trim, IntToString, ParseNat;
    var takenIdentifiers := Taken(rows, lower);
    TakenStart(rows, lower);
    EmptyPass(rows, lower);
    var planned: seq<Change>, blocked, bothPresent, bothMissing := [], 0, 0, 0;
    for n := 0 to |rows|
      invariant takenIdentifiers == TakenAfter(rows, n, lower)
      invariant planned == PlannedChanges(Verdicts(rows, n, lower))
      invariant blocked == Count(Verdicts(rows, n, lower), Blocked)
      invariant bothPresent == Count(Verdicts(rows, n, lower), BothPresent)
      invariant bothMissing == Count(Verdicts(rows, n, lower), BothMissing)
      invariant |planned| + blocked + bothPresent + bothMissing == n
    {
      PassStep(rows, n, lower);
      var property := rows[n];
      var hasIdentifier := !IsBlank(property.identifier);
      var hasExpediaId := property.expediaId.Some?;
      if hasIdentifier && hasExpediaId {
        bothPresent := bothPresent + 1;
        continue;
      }
      if !hasIdentifier && !hasExpediaId {
        bothMissing := bothMissing + 1;
        continue;
      }
      if hasExpediaId {
        var identifier := IntToString(property.expediaId.value);
        var key := lower(identifier);
        if key in takenIdentifiers {
          blocked := blocked + 1;
          continue;
        }
        takenIdentifiers := takenIdentifiers + {key};
        planned := planned + [SetIdentifier(property.id, identifier)];
        continue;
      }
      var identifier := Trim(property.identifier.value);
      if !IsPlainInteger(identifier) {
        blocked := blocked + 1;
        continue;
      }
      var expediaId := ParseNat(identifier);
      if expediaId > INT32_MAX {
        blocked := blocked + 1;
        continue;
      }
      planned := planned + [SetExpediaId(property.id, expediaId)];
    }
    r := Report(planned, blocked, bothPresent, bothMissing);
  }

  // ---------------------------------------------------------------- applying

  /** The table after the planned changes of the rows in `applied`; the other writes failed. */
  function Applied(rows: seq<Row>, lower: LowerCase, applied: nat -> bool): (r: seq<Row>)
    ensures |r| == |rows|
  {
    var vs := Verdicts(rows, |rows|, lower);
    seq(|rows|, i requires 0 <= i < |rows| => if applied(i) then ApplyVerdict(rows[i], vs[i]) else rows[i])
  }

  function ApplyVerdict(row: Row, v: Verdict): Row {
    match v
    case Planned(SetIdentifier(_, identifier)) => row.(identifier := Some(identifier))
    case Planned(SetExpediaId(_, n)) => row.(expediaId := Some(n))
    case _ => row
  }

  // ---------------------------------------------------------------- the apply loop

  predicate UniqueRowIds(rows: seq<Row>) {
    forall i, j :: 0 <= i < j < |rows| ==> rows[i].id != rows[j].id
  }

  function WriteChange(row: Row, c: Change): Row {
    if row.id != c.id then row
    else
      match c
      case SetIdentifier(_, identifier) => row.(identifier := Some(identifier))
      case SetExpediaId(_, n) => row.(expediaId := Some(n))
  }

  /** One update by id; it changes the documents that have the id. */
  function Written(rows: seq<Row>, c: Change): (r: seq<Row>)
    ensures |r| == |rows|
  {
    seq(|rows|, i requires 0 <= i < |rows| => WriteChange(rows[i], c))
  }

  /** `ok` says which of the updates succeed. */
  function WrittenAll(rows: seq<Row>, changes: seq<Change>, ok: nat -> bool): (r: seq<Row>)
    ensures |r| == |rows|
  {
    if changes == [] then rows
    else
      var k := |changes| - 1;
      var before := WrittenAll(rows, changes[..k], ok);
      if ok(k) then Written(before, changes[k]) else before
  }

  method ApplyChanges(
    rows: seq<Row>, planned: seq<Change>, ok: nat -> bool)
    returns (r: seq<Row>, updated: nat, failed: nat)
    ensures r == WrittenAll(rows, planned, ok)
    ensures updated + failed == |planned|
    ensures failed == 0 ==> forall k :: 0 <= k < |planned| ==> ok(k)
  {
    hide Written;
    r, updated, failed := rows, 0, 0;
    for k := 0 to |planned|
      invariant r == WrittenAll(rows, planned[..k], ok)
      invariant updated + failed == k
      invariant failed == 0 ==> forall j :: 0 <= j < k ==> ok(j)
    {
      assert planned[..k + 1][..k] == planned[..k];
      if ok(k) {
        r := Written(r, planned[k]);
        updated := updated + 1;
      } else {
        failed := failed + 1;
      }
    }
    assert planned[..|planned|] == planned;
  }

  /** The place of row `i`'s change in the plan. */
  function PlanIndex(rows: seq<Row>, i: nat, lower: LowerCase): nat
    requires i <= |rows|
  {
    |PlannedChanges(Verdicts(rows, i, lower))|
  }

  lemma JudgedId(row: Row, taken: set<string>, lower: LowerCase)
    ensures
      var v := Judge(row, taken, lower);
      v.Planned? ==> v.change.id == row.id && WriteChange(row, v.change) == ApplyVerdict(row, v)
  {
  }

  lemma WrittenStep(rows: seq<Row>, before: seq<Change>, c: Change, ok: nat -> bool)
    ensures WrittenAll(rows, before + [c], ok) ==
            var r := WrittenAll(rows, before, ok);
            if ok(|before|) then Written(r, c) else r
  {
    assert (before + [c])[..|before|] == before;
  }

  lemma NothingWritten(rows: seq<Row>, lower: LowerCase, ok: nat -> bool)
    ensures WrittenAll(rows, PlannedChanges(Verdicts(rows, 0, lower)), ok) == rows
  {
  }

  /** The changes planned for the first `n` rows, written one by one, reach exactly these rows. */
  lemma {:induction false} WrittenRows(rows: seq<Row>, n: nat, lower: LowerCase, ok: nat -> bool, i: nat)
    requires UniqueRowIds(rows) && n <= |rows| && i < |rows|
    ensures WrittenAll(rows, PlannedChanges(Verdicts(rows, n, lower)), ok)[i] ==
            if i < n && ok(PlanIndex(rows, i, lower))
            then ApplyVerdict(rows[i], Judge(rows[i], TakenAfter(rows, i, lower), lower)) else rows[i]
  {
    hide Judge, TakenAfter, Verdicts, PlannedChanges, WrittenAll, ApplyVerdict, AddedKeys, Count;
    if n == 0 {
      NothingWritten(rows, lower, ok);
    } else {
      WrittenRows(rows, n - 1, lower, ok, i);
      PassStep(rows, n - 1, lower);
      var v := Judge(rows[n - 1], TakenAfter(rows, n - 1, lower), lower);
      JudgedId(rows[n - 1], TakenAfter(rows, n - 1, lower), lower);
      var before := PlannedChanges(Verdicts(rows, n - 1, lower));
      IdKept(rows[i], Judge(rows[i], TakenAfter(rows, i, lower), lower));
      if v.Planned? {
        WrittenStep(rows, before, v.change, ok);
        assert i != n - 1 ==> rows[i].id != rows[n - 1].id;
      } else {
        assert before + [] == before;
        IdKept(rows[n - 1], v);
      }
    }
  }

  lemma IdKept(row: Row, v: Verdict)
    ensures ApplyVerdict(row, v).id == row.id
    ensures !v.Planned? ==> ApplyVerdict(row, v) == row
  {
  }

  /** Writing the plan by id, with any of the updates failing, is writing each row's own verdict. */
  lemma WritesReachTheirRows(rows: seq<Row>, lower: LowerCase, ok: nat -> bool)
    requires UniqueRowIds(rows)
    ensures WrittenAll(rows, PlannedChanges(Verdicts(rows, |rows|, lower)), ok)
         == Applied(rows, lower, (i: nat) => i < |rows| && ok(PlanIndex(rows, i, lower)))
  {
    hide Judge, ApplyVerdict;
    var applied: nat -> bool := (i: nat) => i < |rows| && ok(PlanIndex(rows, i, lower));
    var w := WrittenAll(rows, PlannedChanges(Verdicts(rows, |rows|, lower)), ok);
    forall i | 0 <= i < |rows|
      ensures w[i] == Applied(rows, lower, applied)[i]
    {
      WrittenRows(rows, |rows|, lower, ok, i);
      VerdictAt(rows, |rows|, i, lower);
    }
  }

  // ---------------------------------------------------------------- uniqueness and stability

  predicate UniqueIdentifiers(rows: seq<Row>, lower: LowerCase) {
    forall i, j :: 0 <= i < j < |rows| && !IsBlank(rows[i].identifier) && !IsBlank(rows[j].identifier) ==>
      lower(Trim(rows[i].identifier.value)) != lower(Trim(rows[j].identifier.value))
  }

  lemma {:induction false} VerdictAt(rows: seq<Row>, n: nat, i: nat, lower: LowerCase)
    requires i < n <= |rows|
    ensures Verdicts(rows, n, lower)[i] == Judge(rows[i], TakenAfter(rows, i, lower), lower)
  {
    hide Judge, TakenAfter;
    if i < n - 1 {
      VerdictAt(rows, n - 1, i, lower);
    }
  }

  lemma {:induction false} TakenGrows(rows: seq<Row>, i: nat, j: nat, lower: LowerCase)
    requires i <= j <= |rows|
    ensures TakenAfter(rows, i, lower) <= TakenAfter(rows, j, lower)
  {
    hide Judge, AddedKeys, Taken;
    if i < j {
      TakenGrows(rows, i, j - 1, lower);
    }
  }

  lemma PrintedIdIsKey(n: int, lower: LowerCase)
    ensures KeyOf(IntToString(n), lower) == lower(IntToString(n))
    ensures !IsBlank(Some(IntToString(n)))
  {
    assert Trim(IntToString(n)) == IntToString(n);
  }

  /** A row's key once it was written: new keys were not taken and are now, others are unchanged. */
  lemma WrittenKey(row: Row, taken: set<string>, lower: LowerCase)
    ensures
      var v := Judge(row, taken, lower);
      var r := ApplyVerdict(row, v);
      !IsBlank(r.identifier) ==>
        var key := KeyOf(r.identifier.value, lower);
        if IsBlank(row.identifier) then key !in taken && AddedKeys(v, lower) == {key}
        else r.identifier == row.identifier
  {
    if row.expediaId.Some? {
      PrintedIdIsKey(row.expediaId.value, lower);
    }
  }

  /** The key of a row after any part of the plan was applied, and when it entered the taken set. */
  lemma KeyAfterApply(rows: seq<Row>, lower: LowerCase, applied: nat -> bool, i: nat)
    requires i < |rows|
    requires !IsBlank(Applied(rows, lower, applied)[i].identifier)
    ensures
      var key := KeyOf(Applied(rows, lower, applied)[i].identifier.value, lower);
      if IsBlank(rows[i].identifier)
      then key !in TakenAfter(rows, i, lower) && key in TakenAfter(rows, i + 1, lower)
      else key == KeyOf(rows[i].identifier.value, lower) && key in Taken(rows, lower)
  {
    hide Judge, ApplyVerdict, Trim, KeyOf, AddedKeys;
    VerdictAt(rows, |rows|, i, lower);
    WrittenKey(rows[i], TakenAfter(rows, i, lower), lower);
    if !IsBlank(rows[i].identifier) {
      assert KeyOf(rows[i].identifier.value, lower) in Taken(rows, lower);
    }
  }

  lemma TakenStart(rows: seq<Row>, lower: LowerCase)
    ensures TakenAfter(rows, 0, lower) == Taken(rows, lower)
  {
  }

  /** If no two rows share an identifier, then none do after any part of the plan was applied. */
  lemma ApplyKeepsUnique(rows: seq<Row>, lower: LowerCase, applied: nat -> bool)
    requires UniqueIdentifiers(rows, lower)
    ensures UniqueIdentifiers(Applied(rows, lower, applied), lower)
  {
    hide Trim, Applied, TakenAfter;
    var r := Applied(rows, lower, applied);
    assert TakenAfter(rows, 0, lower) == Taken(rows, lower) by {
      TakenStart(rows, lower);
    }
    forall i, j | 0 <= i < j < |r| && !IsBlank(r[i].identifier) && !IsBlank(r[j].identifier)
      ensures lower(Trim(r[i].identifier.value)) != lower(Trim(r[j].identifier.value))
    {
      KeyAfterApply(rows, lower, applied, i);
      KeyAfterApply(rows, lower, applied, j);
      TakenGrows(rows, 0, i, lower);
      TakenGrows(rows, 0, j, lower);
      TakenGrows(rows, i + 1, j, lower);
    }
  }

  /** Every planned change fills the one missing field of its row, with a printed expedia_id that nobody
      has, or with the number its identifier spells, which fits in 32 bits. Existing values stay. */
  lemma PlanIsFaithful(rows: seq<Row>, lower: LowerCase, i: nat)
    requires i < |rows|
    ensures
      var v := Verdicts(rows, |rows|, lower)[i];
      var row := rows[i];
      v.Planned? ==>
        match v.change
        case SetIdentifier(id, identifier) =>
          && id == row.id && IsBlank(row.identifier) && row.expediaId.Some?
          && identifier == IntToString(row.expediaId.value) && KeyOf(identifier, lower) !in Taken(rows, lower)
        case SetExpediaId(id, n) =>
          && id == row.id && row.expediaId == None && !IsBlank(row.identifier)
          && 0 <= n <= 2147483647 && AllDigits(Trim(row.identifier.value)) && n == ParseNat(Trim(row.identifier.value))
  {
    VerdictAt(rows, |rows|, i, lower);
    TakenGrows(rows, 0, i, lower);
    if rows[i].expediaId.Some? {
      PrintedIdIsKey(rows[i].expediaId.value, lower);
    }
  }

  /** The plan for one of the first `n` rows gives this identifier key to its row. */
  predicate PlannedKey(rows: seq<Row>, n: nat, lower: LowerCase, key: string)
    requires n <= |rows|
  {
    exists j :: 0 <= j < n && key in AddedKeys(Verdicts(rows, |rows|, lower)[j], lower)
  }

  lemma PlannedKeyStep(rows: seq<Row>, n: nat, lower: LowerCase, key: string)
    requires n < |rows|
    ensures PlannedKey(rows, n + 1, lower, key) <==>
            || PlannedKey(rows, n, lower, key)
            || key in AddedKeys(Judge(rows[n], TakenAfter(rows, n, lower), lower), lower)
  {
    hide Judge, TakenAfter, Verdicts, AddedKeys;
    VerdictAt(rows, |rows|, n, lower);
  }

  lemma NoneTaken(rows: seq<Row>, lower: LowerCase, key: string)
    ensures key in TakenAfter(rows, 0, lower) <==> key in Taken(rows, lower)
    ensures !PlannedKey(rows, 0, lower, key)
  {
  }

  lemma {:induction false} TakenMeans(rows: seq<Row>, n: nat, lower: LowerCase, key: string)
    requires n <= |rows|
    ensures key in TakenAfter(rows, n, lower) <==> key in Taken(rows, lower) || PlannedKey(rows, n, lower, key)
  {
    hide Judge, Taken, AddedKeys, PlannedKey, Verdicts;
    if n == 0 {
      NoneTaken(rows, lower, key);
    } else {
      TakenMeans(rows, n - 1, lower, key);
      PlannedKeyStep(rows, n - 1, lower, key);
    }
  }

  /** What each verdict means, in both directions: both fields present, both missing, or one missing that
      cannot be filled because the printed id is the identifier of an existing row or of a row planned
      before, or because the identifier is no plain integer of at most 32 bits. */
  lemma VerdictMeans(rows: seq<Row>, lower: LowerCase, i: nat)
    requires i < |rows|
    ensures
      var v, row := Verdicts(rows, |rows|, lower)[i], rows[i];
      var blank := IsBlank(row.identifier);
      && (v == BothPresent <==> !blank && row.expediaId.Some?)
      && (v == BothMissing <==> blank && row.expediaId == None)
      && (v == Blocked <==>
            || (blank && row.expediaId.Some? &&
                var key := lower(IntToString(row.expediaId.value));
                key in Taken(rows, lower) || PlannedKey(rows, i, lower, key))
            || (!blank && row.expediaId == None &&
                var text := Trim(row.identifier.value);
                !AllDigits(text) || ParseNat(text) > 2147483647))
  {
    hide TakenAfter, Taken, PlannedKey, Trim, IntToString, ParseNat;
    VerdictAt(rows, |rows|, i, lower);
    if rows[i].expediaId.Some? {
      TakenMeans(rows, i, lower, lower(IntToString(rows[i].expediaId.value)));
    }
  }

  /** Every write of the plan succeeded. */
  function Full(rows: seq<Row>, lower: LowerCase): (r: seq<Row>)
    ensures |r| == |rows|
  {
    Applied(rows, lower, i => true)
  }

  /** After a full apply the taken set is the one the first pass ended with. */
  lemma TakenAfterApply(rows: seq<Row>, lower: LowerCase)
    ensures TakenAfter(rows, |rows|, lower) <= Taken(Full(rows, lower), lower)
  {
    forall key | key in TakenAfter(rows, |rows|, lower)
      ensures key in Taken(Full(rows, lower), lower)
    {
      TakenSource(rows, |rows|, lower, key);
    }
  }

  /** A row that adds a key to the taken set holds that key once it was written. */
  lemma AddedKeyIsWritten(row: Row, taken: set<string>, lower: LowerCase, key: string)
    requires key in AddedKeys(Judge(row, taken, lower), lower)
    ensures
      var r := ApplyVerdict(row, Judge(row, taken, lower));
      !IsBlank(r.identifier) && KeyOf(r.identifier.value, lower) == key
  {
    PrintedIdIsKey(row.expediaId.value, lower);
  }

  /** Writing a row never changes an identifier it already has. */
  lemma IdentifierKept(row: Row, taken: set<string>, lower: LowerCase)
    requires !IsBlank(row.identifier)
    ensures ApplyVerdict(row, Judge(row, taken, lower)).identifier == row.identifier
  {
  }

  lemma {:induction false} TakenSource(rows: seq<Row>, n: nat, lower: LowerCase, key: string)
    requires n <= |rows| && key in TakenAfter(rows, n, lower)
    ensures key in Taken(Full(rows, lower), lower)
  {
    hide Judge, ApplyVerdict, Trim, KeyOf;
    var r := Full(rows, lower);
    if n == 0 {
      var i :| 0 <= i < |rows| && !IsBlank(rows[i].identifier) && KeyOf(rows[i].identifier.value, lower) == key;
      VerdictAt(rows, |rows|, i, lower);
      IdentifierKept(rows[i], TakenAfter(rows, i, lower), lower);
      assert KeyOf(r[i].identifier.value, lower) == key;
    } else if key in TakenAfter(rows, n - 1, lower) {
      TakenSource(rows, n - 1, lower, key);
    } else {
      VerdictAt(rows, |rows|, n - 1, lower);
      AddedKeyIsWritten(rows[n - 1], TakenAfter(rows, n - 1, lower), lower, key);
      assert KeyOf(r[n - 1].identifier.value, lower) == key;
    }
  }

  /** A written row needs no further change, and a blocked row stays blocked. */
  lemma JudgeAgain(row: Row, taken: set<string>, later: set<string>, lower: LowerCase)
    requires taken <= later
    ensures
      var v := Judge(row, taken, lower);
      var w := Judge(ApplyVerdict(row, v), later, lower);
      !w.Planned? && (w.Blocked? <==> v.Blocked?)
  {
    if row.expediaId.Some? {
      PrintedIdIsKey(row.expediaId.value, lower);
    }
  }

  /** Planning again after the whole plan was applied plans nothing, and blocks the same rows. */
  lemma SecondPlanIsEmpty(rows: seq<Row>, lower: LowerCase)
    ensures
      var r := Full(rows, lower);
      && PlannedChanges(Verdicts(r, |r|, lower)) == []
      && (forall i :: 0 <= i < |rows| ==>
          Verdicts(r, |r|, lower)[i].Blocked? == Verdicts(rows, |rows|, lower)[i].Blocked?)
  {
    hide Judge, ApplyVerdict;
    var r := Full(rows, lower);
    TakenAfterApply(rows, lower);
    forall i | 0 <= i < |rows|
      ensures !Verdicts(r, |r|, lower)[i].Planned?
      ensures Verdicts(r, |r|, lower)[i].Blocked? == Verdicts(rows, |rows|, lower)[i].Blocked?
    {
      VerdictAt(rows, |rows|, i, lower);
      VerdictAt(r, |r|, i, lower);
      TakenGrows(rows, i, |rows|, lower);
      TakenGrows(r, 0, i, lower);
      JudgeAgain(rows[i], TakenAfter(rows, i, lower), TakenAfter(r, i, lower), lower);
    }
    NothingPlanned(Verdicts(r, |r|, lower));
  }

  lemma {:induction false} NothingPlanned(vs: seq<Verdict>)
    requires forall i :: 0 <= i < |vs| ==> !vs[i].Planned?
    ensures PlannedChanges(vs) == []
  {
    if vs != [] {
      NothingPlanned(vs[..|vs| - 1]);
    }
  }
}
