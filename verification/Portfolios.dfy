/** Portfolios, the reserved Internal Portfolio that inherits the properties of a removed one, and
    the import that finds or creates service types by name. */
module Portfolios {
  import opened Basics
  import opened Text
  import opened RegexEscape

  const INTERNAL := "Internal Portfolio"
  const OTA := "OTA"

  datatype Portfolio = Portfolio(id: Id, name: string, serviceTypeId: Id)

  datatype ServiceType = ServiceType(id: Id, name: string, order: int)

  datatype Property = Property(id: Id, portfolioId: Id)

  /** The tables; `nextId` is the next id the database generates. */
  datatype State = State(portfolios: seq<Portfolio>, serviceTypes: seq<ServiceType>, properties: seq<Property>,
      nextId: Id)

  datatype Reply = Done | Conflict | NotFound | BadRequest | DatabaseError

  /** `toLowerCase` and the database's case folding, whatever the letters. */
  datatype Casing = Casing(lower: string -> string, fold: Fold)

  /** The portfolios a user may access; None means all of them. */
  type Access = Option<set<Id>>

  // ---------------------------------------------------------------- lookups

  function FindById(ps: seq<Portfolio>, id: Id): (r: Option<Portfolio>)
    ensures r.Some? ==> r.value in ps && r.value.id == id
    ensures r == None ==> forall i :: 0 <= i < |ps| ==> ps[i].id != id
  {
    if ps == [] then None else if ps[0].id == id then Some(ps[0]) else FindById(ps[1..], id)
  }

  function FindByName(ps: seq<Portfolio>, name: string): (r: Option<Portfolio>)
    ensures r.Some? ==> r.value in ps && r.value.name == name
    ensures r == None ==> forall i :: 0 <= i < |ps| ==> ps[i].name != name
  {
    if ps == [] then None else if ps[0].name == name then Some(ps[0]) else FindByName(ps[1..], name)
  }

  /** findFirst by the anchored, case-insensitive pattern. */
  function FindType(types: seq<ServiceType>, pattern: string, fold: Fold): (r: Option<ServiceType>)
    ensures r.Some? ==> r.value in types && Matches(pattern, r.value.name, fold)
    ensures r == None ==> forall i :: 0 <= i < |types| ==> !Matches(pattern, types[i].name, fold)
  {
    if types == [] then None
    else if Matches(pattern, types[0].name, fold) then Some(types[0])
    else FindType(types[1..], pattern, fold)
  }

  function MaxOrder(types: seq<ServiceType>): int {
    if types == [] then 0
    else if |types| == 1 then types[0].order
    else
      var m := MaxOrder(types[1..]);
      if types[0].order > m then types[0].order else m
  }

  /** Finds a service type by pattern, or creates it under `name`. */
  function FindOrCreateType(s: State, pattern: string, name: string, fold: Fold): (State, Id) {
    match FindType(s.serviceTypes, pattern, fold)
    case Some(t) => (s, t.id)
    case None =>
      (s.(serviceTypes := s.serviceTypes + [ServiceType(s.nextId, name, MaxOrder(s.serviceTypes) + 1)],
          nextId := s.nextId + 1),
       s.nextId)
  }

  function AddPortfolio(s: State, name: string, serviceTypeId: Id): State {
    s.(portfolios := s.portfolios + [Portfolio(s.nextId, name, serviceTypeId)], nextId := s.nextId + 1)
  }

  // ---------------------------------------------------------------- operations

  function EnsureInternal(s: State, casing: Casing): State {
    if FindByName(s.portfolios, INTERNAL).Some? then s
    else
      var (s1, typeId) := FindOrCreateType(s, OTA, OTA, casing.fold);
      AddPortfolio(s1, INTERNAL, typeId)
  }

  predicate IsReserved(name: string, casing: Casing) {
    casing.lower(Trim(name)) == casing.lower(INTERNAL)
  }

  function Create(s: State, casing: Casing, name: string, serviceTypeId: Id): (State, Reply) {
    if IsReserved(name, casing) then (s, Conflict)
    else if FindByName(s.portfolios, name).Some? then (s, Conflict)
    else (AddPortfolio(s, name, serviceTypeId), Done)
  }

  predicate Accessible(access: Access, id: Id) {
    access == None || id in access.value
  }

  function Rename(ps: seq<Portfolio>, id: Id, name: string): (r: seq<Portfolio>)
    ensures |r| == |ps|
    ensures forall i :: 0 <= i < |ps| ==> r[i] == if ps[i].id == id then ps[i].(name := name) else ps[i]
  {
    seq(|ps|, i requires 0 <= i < |ps| => if ps[i].id == id then ps[i].(name := name) else ps[i])
  }

  /** An update; names are unique in the database, which refuses another portfolio's name. */
  function Update(s: State, casing: Casing, access: Access, id: Id, name: Option<string>): (State, Reply) {
    if !Accessible(access, id) then (s, NotFound)
    else
      match FindById(s.portfolios, id)
      case None => (s, NotFound)
      case Some(existing) =>
        if existing.name == INTERNAL then (s, BadRequest)
        else if name == None then (s, Done)
        else if IsReserved(name.value, casing) then (s, Conflict)
        else
          match FindByName(s.portfolios, name.value)
          case Some(other) =>
            if other.id != id then (s, DatabaseError) else (s, Done)
          case None => (s.(portfolios := Rename(s.portfolios, id, name.value)), Done)
  }

  function Reassigned(ps: seq<Property>, from: Id, to: Id): (r: seq<Property>)
    ensures |r| == |ps|
    ensures forall i :: 0 <= i < |ps| ==> r[i] == if ps[i].portfolioId == from then ps[i].(portfolioId := to) else ps[i]
  {
    seq(|ps|, i requires 0 <= i < |ps| => if ps[i].portfolioId == from then ps[i].(portfolioId := to) else ps[i])
  }

  function Without(ps: seq<Portfolio>, id: Id): (r: seq<Portfolio>)
    ensures forall p :: p in r <==> p in ps && p.id != id
  {
    if ps == [] then []
    else
      assert ps == [ps[0]] + ps[1..];
      (if ps[0].id == id then [] else [ps[0]]) + Without(ps[1..], id)
  }

  function Remove(s: State, casing: Casing, access: Access, id: Id): (State, Reply) {
    if !Accessible(access, id) then (s, NotFound)
    else
      match FindById(s.portfolios, id)
      case None => (s, NotFound)
      case Some(p) =>
        if p.name == INTERNAL then (s, BadRequest)
        else
          var s1 := EnsureInternal(s, casing);
          match FindByName(s1.portfolios, INTERNAL)
          case None => (s1, DatabaseError)
          case Some(internal) =>
            (s1.(properties := Reassigned(s1.properties, id, internal.id), portfolios := Without(s1.portfolios, id)),
                Done)
  }

  // ---------------------------------------------------------------- import

  /** A row of the sheet: the portfolio cell and the service-type cell. */
  datatype ImportRow = ImportRow(portfolio: Option<string>, serviceType: Option<string>)

  /** `String(cell).trim()` of a cell that may be missing. */
  function CellText(cell: Option<string>): string {
    if cell == None then "undefined" else Trim(cell.value)
  }

  /** The distinct trimmed names, in order of first appearance. */
  function ImportNames(rows: seq<ImportRow>): seq<string> {
    if rows == [] then []
    else
      var names := ImportNames(rows[..|rows| - 1]);
      var cell := rows[|rows| - 1].portfolio;
      if cell == None || Trim(cell.value) == "" || Trim(cell.value) in names then names else names + [Trim(cell.value)]
  }

  function RowFor(rows: seq<ImportRow>, name: string): Option<ImportRow> {
    if rows == [] then None
    else if CellText(rows[0].portfolio) == name then Some(rows[0])
    else RowFor(rows[1..], name)
  }

  /** The service type of a new portfolio: the row's own, found or created, or the default. */
  function TypeForRow(s: State, row: Option<ImportRow>, defaultId: Id, fold: Fold): (State, Id) {
    if row.Some? && row.value.serviceType.Some? && row.value.serviceType.value != "" then
      var name := Trim(row.value.serviceType.value);
      FindOrCreateType(s, Escape(name), name, fold)
    else (s, defaultId)
  }

  datatype Progress = Progress(state: State, created: seq<string>, skipped: seq<string>)

  /** One name of the import. `fails` says whether the database refuses the new portfolio. */
  function ImportOne(
    p: Progress, rows: seq<ImportRow>, defaultId: Id, fold: Fold, fails: string -> bool, name: string): Progress {
    if FindByName(p.state.portfolios, name).Some? then p.(skipped := p.skipped + [name])
    else
      var (s1, typeId) := TypeForRow(p.state, RowFor(rows, name), defaultId, fold);
      if fails(name) then Progress(s1, p.created, p.skipped + [name])
      else Progress(AddPortfolio(s1, name, typeId), p.created + [name], p.skipped)
  }

  function ImportAll(
    p: Progress, rows: seq<ImportRow>, defaultId: Id, fold: Fold, fails: string -> bool,
    names: seq<string>): Progress {
    if names == [] then p
    else ImportOne(ImportAll(p, rows, defaultId, fold, fails, names[..|names| - 1]), rows, defaultId, fold, fails,
        names[|names| - 1])
  }

  function Import(s: State, casing: Casing, rows: seq<ImportRow>, fails: string -> bool): Progress {
    var (s1, defaultId) := FindOrCreateType(s, OTA, OTA, casing.fold);
    ImportAll(Progress(s1, [], []), rows, defaultId, casing.fold, fails, ImportNames(rows))
  }

  // ---------------------------------------------------------------- the service

  class PortfolioService {
    const casing: Casing
    var portfolios: seq<Portfolio>
    var serviceTypes: seq<ServiceType>
    var properties: seq<Property>
    var nextId: Id

    constructor (casing: Casing, s: State)
      ensures this.casing == casing && Tables() == s
    {
      this.casing := casing;
      portfolios, serviceTypes, properties, nextId := s.portfolios, s.serviceTypes, s.properties, s.nextId;
    }

    function Tables(): State
      reads this
    {
      State(portfolios, serviceTypes, properties, nextId)
    }

    method FindOrCreateServiceType(pattern: string, name: string) returns (id: Id)
      modifies this`serviceTypes, this`nextId
      ensures (Tables(), id) == FindOrCreateType(old(Tables()), pattern, name, casing.fold)
    {
      var found := FindType(serviceTypes, pattern, casing.fold);
      if found.Some? {
        return found.value.id;
      }
      id := nextId;
      serviceTypes := serviceTypes + [ServiceType(nextId, name, MaxOrder(serviceTypes) + 1)];
      nextId := nextId + 1;
    }

    method EnsureInternalPortfolio()
      modifies this
      ensures Tables() == EnsureInternal(old(Tables()), casing)
    {
      var existing := FindByName(portfolios, INTERNAL);
      if existing.Some? {
        return;
      }
      var defaultServiceType := FindOrCreateServiceType(OTA, OTA);
      portfolios := portfolios + [Portfolio(nextId, INTERNAL, defaultServiceType)];
      nextId := nextId + 1;
    }

    method CreatePortfolio(name: string, serviceTypeId: Id) returns (reply: Reply)
      modifies this
      ensures (Tables(), reply) == Create(old(Tables()), casing, name, serviceTypeId)
    {
      if casing.lower(Trim(name)) == casing.lower(INTERNAL) {
        return Conflict;
      }
      if FindByName(portfolios, name).Some? {
        return Conflict;
      }
      portfolios := portfolios + [Portfolio(nextId, name, serviceTypeId)];
      nextId := nextId + 1;
      reply := Done;
    }

    method UpdatePortfolio(access: Access, id: Id, name: Option<string>) returns (reply: Reply)
      modifies this
      ensures (Tables(), reply) == Update(old(Tables()), casing, access, id, name)
    {
      if access.Some? && id !in access.value {
        return NotFound;
      }
      var existing := FindById(portfolios, id);
      if existing == None {
        return NotFound;
      }
      if existing.value.name == INTERNAL {
        return BadRequest;
      }
      if name.Some? {
        if casing.lower(Trim(name.value)) == casing.lower(INTERNAL) {
          return Conflict;
        }
        var other := FindByName(portfolios, name.value);
        if other.Some? && other.value.id != id {
          return DatabaseError;
        }
        if other == None {
          portfolios := Rename(portfolios, id, name.value);
        }
      }
      reply := Done;
    }

    /** updateMany on the properties of one portfolio; returns how many it moved. */
    method ReassignProperties(from: Id, to: Id) returns (moved: nat)
      modifies this`properties
      ensures properties == Reassigned(old(properties), from, to)
      ensures moved == CountIn(old(properties), from)
    {
      ghost var before := properties;
      moved := 0;
      var n := 0;
      while n < |properties|
        invariant 0 <= n <= |properties| == |before|
        invariant properties[n..] == before[n..]
        invariant forall i :: 0 <= i < n ==> properties[i] == Reassigned(before, from, to)[i]
        invariant moved == CountIn(before[..n], from)
      {
        assert properties[n] == properties[n..][0] == before[n];
        assert before[..n + 1][..n] == before[..n];
        if properties[n].portfolioId == from {
          properties := properties[n := properties[n].(portfolioId := to)];
          moved := moved + 1;
        }
        n := n + 1;
      }
      assert before[..n] == before;
    }

    method RemovePortfolio(access: Access, id: Id) returns (reply: Reply, moved: nat)
      modifies this
      ensures (Tables(), reply) == Remove(old(Tables()), casing, access, id)
      ensures moved == if reply == Done then CountIn(old(properties), id) else 0
    {
      moved := 0;
      if access.Some? && id !in access.value {
        return NotFound, 0;
      }
      var portfolio := FindById(portfolios, id);
      if portfolio == None {
        return NotFound, 0;
      }
      if portfolio.value.name == INTERNAL {
        return BadRequest, 0;
      }
      EnsureInternalPortfolio();
      var internal := FindByName(portfolios, INTERNAL);
      if internal == None {
        return DatabaseError, 0;
      }
      moved := ReassignProperties(id, internal.value.id);
      portfolios := Without(portfolios, id);
      reply := Done;
    }

    /** One name of the import, with the lists reported so far. */
    method ImportName(
      rows: seq<ImportRow>, defaultId: Id, fails: string -> bool, name: string, created0: seq<string>,
      skipped0: seq<string>)
      returns (created: seq<string>, skipped: seq<string>)
      modifies this
      ensures Progress(Tables(), created, skipped)
           == ImportOne(Progress(old(Tables()), created0, skipped0), rows, defaultId, casing.fold, fails, name)
    {
      created, skipped := created0, skipped0;
      var existing := FindByName(portfolios, name);
      if existing.Some? {
        skipped := skipped + [name];
        return;
      }
      var row := RowFor(rows, name);
      var serviceTypeId := defaultId;
      if row.Some? && row.value.serviceType.Some? && row.value.serviceType.value != "" {
        var stName := Trim(row.value.serviceType.value);
        serviceTypeId := FindOrCreateServiceType(Escape(stName), stName);
      }
      if fails(name) {
        skipped := skipped + [name];
        return;
      }
      portfolios := portfolios + [Portfolio(nextId, name, serviceTypeId)];
      nextId := nextId + 1;
      created := created + [name];
    }

    method ImportFromExcel(
      rows: seq<ImportRow>, fails: string -> bool)
      returns (created: seq<string>, skipped: seq<string>)
      modifies this
      ensures Progress(Tables(), created, skipped) == Import(old(Tables()), casing, rows, fails)
    {
      var defaultServiceType := FindOrCreateServiceType(OTA, OTA);
      ghost var start := Progress(Tables(), [], []);
      created, skipped := [], [];
      var names := ImportNames(rows);
      for n := 0 to |names|
        invariant Progress(Tables(), created, skipped)
               == ImportAll(start, rows, defaultServiceType, casing.fold, fails, names[..n])
      {
        assert names[..n + 1][..n] == names[..n];
        created, skipped := ImportName(rows, defaultServiceType, fails, names[n], created, skipped);
      }
      assert names[..|names|] == names;
    }
  }

  function CountIn(ps: seq<Property>, portfolioId: Id): nat {
    if ps == [] then 0
    else CountIn(ps[..|ps| - 1], portfolioId) + if ps[|ps| - 1].portfolioId == portfolioId then 1 else 0
  }

  // ---------------------------------------------------------------- invariants

  predicate UniquePortfolios(ps: seq<Portfolio>) {
    forall i, j :: 0 <= i < j < |ps| ==> ps[i].id != ps[j].id && ps[i].name != ps[j].name
  }

  lemma SamePortfolio(ps: seq<Portfolio>, p: Portfolio, q: Portfolio)
    requires UniquePortfolios(ps) && p in ps && q in ps
    requires p.id == q.id || p.name == q.name
    ensures p == q
  {
    var i :| 0 <= i < |ps| && ps[i] == p;
    var j :| 0 <= j < |ps| && ps[j] == q;
  }

  predicate Owned(s: State) {
    forall x :: x in s.properties ==> exists p :: p in s.portfolios && p.id == x.portfolioId
  }

  /** No two service types are equal up to case. */
  predicate DistinctTypes(types: seq<ServiceType>, fold: Fold) {
    forall i, j :: 0 <= i < j < |types| ==> !EqualFold(types[i].name, types[j].name, fold)
  }

  /** The tables are sound and `internalId` is the one portfolio named "Internal Portfolio". */
  predicate Inv(s: State, casing: Casing, internalId: Id) {
    && UniquePortfolios(s.portfolios)
    && (forall p :: p in s.portfolios ==> p.id < s.nextId)
    && (exists p :: p in s.portfolios && p.id == internalId && p.name == INTERNAL)
    && Owned(s)
    && DistinctTypes(s.serviceTypes, casing.fold)
  }

  lemma InternalIsTheOne(s: State, casing: Casing, internalId: Id, p: Portfolio)
    requires Inv(s, casing, internalId) && p in s.portfolios
    ensures p.name == INTERNAL <==> p.id == internalId
  {
    var internal :| internal in s.portfolios && internal.id == internalId && internal.name == INTERNAL;
    if p.name == INTERNAL || p.id == internalId {
      SamePortfolio(s.portfolios, p, internal);
    }
  }

  lemma AddKeepsInv(s: State, casing: Casing, internalId: Id, name: string, typeId: Id)
    requires Inv(s, casing, internalId) && FindByName(s.portfolios, name) == None
    ensures Inv(AddPortfolio(s, name, typeId), casing, internalId)
  {
    var r := AddPortfolio(s, name, typeId);
    forall x | x in r.properties
      ensures exists p :: p in r.portfolios && p.id == x.portfolioId
    {
      var p :| p in s.portfolios && p.id == x.portfolioId;
      assert p in r.portfolios;
    }
    var p :| p in s.portfolios && p.id == internalId && p.name == INTERNAL;
    assert p in r.portfolios;
  }

  lemma TypeKeepsInv(s: State, casing: Casing, internalId: Id, pattern: string, name: string)
    requires Inv(s, casing, internalId)
    requires pattern == Escape(name) || (pattern == name && Plain(name))
    ensures
      var r := FindOrCreateType(s, pattern, name, casing.fold).0;
      Inv(r, casing, internalId) && r.portfolios == s.portfolios && r.properties == s.properties && r.nextId >= s.nextId
  {
    TypesStayDistinct(s, pattern, name, casing.fold);
  }

  lemma FoldSymmetric(a: string, b: string, fold: Fold)
    ensures EqualFold(a, b, fold) <==> EqualFold(b, a, fold)
  {
  }

  /** Find-or-create never makes two service types that are equal up to case. */
  lemma TypesStayDistinct(s: State, pattern: string, name: string, fold: Fold)
    requires DistinctTypes(s.serviceTypes, fold)
    requires pattern == Escape(name) || (pattern == name && Plain(name))
    ensures DistinctTypes(FindOrCreateType(s, pattern, name, fold).0.serviceTypes, fold)
  {
    EscapeIsLiteral(name);
    UnescapedIsLiteralIffPlain(name);
    if FindType(s.serviceTypes, pattern, fold) == None {
      forall i | 0 <= i < |s.serviceTypes|
        ensures !EqualFold(s.serviceTypes[i].name, name, fold)
      {
        assert !Matches(pattern, s.serviceTypes[i].name, fold);
        FoldSymmetric(s.serviceTypes[i].name, name, fold);
      }
    }
  }

  lemma RenameKeepsInv(s: State, casing: Casing, internalId: Id, id: Id, name: string)
    requires Inv(s, casing, internalId) && id != internalId && FindByName(s.portfolios, name) == None
    ensures Inv(s.(portfolios := Rename(s.portfolios, id, name)), casing, internalId)
  {
    hide UniquePortfolios, DistinctTypes, Owned, Rename, INTERNAL;
    RenameKeepsUnique(s.portfolios, id, name);
    RenamedIds(s.portfolios, id, name);
    RenameKeepsOwned(s, id, name);
    var p :| p in s.portfolios && p.id == internalId && p.name == INTERNAL;
    RenameKeepsOthers(s.portfolios, id, name, p);
  }

  lemma RenameKeepsOthers(ps: seq<Portfolio>, id: Id, name: string, p: Portfolio)
    requires p in ps && p.id != id
    ensures p in Rename(ps, id, name)
  {
    var i :| 0 <= i < |ps| && ps[i] == p;
    assert Rename(ps, id, name)[i] == p;
  }

  lemma RenameKeepsOwned(s: State, id: Id, name: string)
    requires Owned(s)
    ensures Owned(s.(portfolios := Rename(s.portfolios, id, name)))
  {
    var r := s.(portfolios := Rename(s.portfolios, id, name));
    forall x | x in r.properties
      ensures exists p :: p in r.portfolios && p.id == x.portfolioId
    {
      var p :| p in s.portfolios && p.id == x.portfolioId;
      var i :| 0 <= i < |s.portfolios| && s.portfolios[i] == p;
      assert r.portfolios[i].id == x.portfolioId;
    }
  }

  lemma RenamedIds(ps: seq<Portfolio>, id: Id, name: string)
    ensures forall q :: q in Rename(ps, id, name) ==> exists p :: p in ps && p.id == q.id
  {
    forall q | q in Rename(ps, id, name)
      ensures exists p :: p in ps && p.id == q.id
    {
      var j :| 0 <= j < |ps| && Rename(ps, id, name)[j] == q;
      assert ps[j] in ps && ps[j].id == q.id;
    }
  }

  lemma UpdateKeepsInv(s: State, casing: Casing, internalId: Id, access: Access, id: Id, name: Option<string>)
    requires Inv(s, casing, internalId)
    ensures Inv(Update(s, casing, access, id, name).0, casing, internalId)
  {
    hide Inv, Rename, IsReserved;
    var found := FindById(s.portfolios, id);
    if found.Some? {
      InternalIsTheOne(s, casing, internalId, found.value);
      if found.value.name != INTERNAL && name.Some? && FindByName(s.portfolios, name.value) == None {
        RenameKeepsInv(s, casing, internalId, id, name.value);
      }
    }
  }

  lemma RenameKeepsUnique(ps: seq<Portfolio>, id: Id, name: string)
    requires UniquePortfolios(ps) && FindByName(ps, name) == None
    ensures UniquePortfolios(Rename(ps, id, name))
  {
  }

  lemma {:induction false} WithoutKeepsDistinct(ps: seq<Portfolio>, id: Id)
    requires UniquePortfolios(ps)
    ensures UniquePortfolios(Without(ps, id))
  {
    if ps != [] {
      var tail := ps[1..];
      WithoutKeepsDistinct(tail, id);
      forall p | p in Without(tail, id)
        ensures p.id != ps[0].id && p.name != ps[0].name
      {
        var i :| 0 <= i < |tail| && tail[i] == p;
        assert ps[i + 1] == p;
      }
    }
  }

  /** Removal moves the portfolio's properties to the Internal Portfolio, keeps all others, and keeps their number. */
  lemma RemoveKeepsInv(s: State, casing: Casing, internalId: Id, access: Access, id: Id)
    requires Inv(s, casing, internalId)
    ensures
      var (r, reply) := Remove(s, casing, access, id);
      && Inv(r, casing, internalId)
      && |r.properties| == |s.properties|
      && (forall i :: 0 <= i < |s.properties| ==>
            r.properties[i] == if reply == Done && s.properties[i].portfolioId == id
                               then s.properties[i].(portfolioId := internalId) else s.properties[i])
  {
    hide DistinctTypes;
    var (r, reply) := Remove(s, casing, access, id);
    if reply == Done {
      var internal :| internal in s.portfolios && internal.id == internalId && internal.name == INTERNAL;
      assert EnsureInternal(s, casing) == s;
      SamePortfolio(s.portfolios, internal, FindByName(s.portfolios, INTERNAL).value);
      InternalIsTheOne(s, casing, internalId, FindById(s.portfolios, id).value);
      assert internal in r.portfolios;
      WithoutKeepsDistinct(s.portfolios, id);
      forall x | x in r.properties
        ensures exists p :: p in r.portfolios && p.id == x.portfolioId
      {
        var i :| 0 <= i < |r.properties| && r.properties[i] == x;
        assert s.properties[i] in s.properties;
        var p :| p in s.portfolios && p.id == s.properties[i].portfolioId;
        assert p.id == id || p in r.portfolios;
      }
    }
  }

  lemma PlainOta()
    ensures Plain(OTA)
  {
  }

  lemma {:induction false} ImportKeepsInv(
    p: Progress, casing: Casing, internalId: Id, rows: seq<ImportRow>, defaultId: Id, fails: string -> bool,
    names: seq<string>)
    requires Inv(p.state, casing, internalId)
    ensures
      var r := ImportAll(p, rows, defaultId, casing.fold, fails, names);
      Inv(r.state, casing, internalId) && r.state.properties == p.state.properties
  {
    if names != [] {
      var init, name := names[..|names| - 1], names[|names| - 1];
      ImportKeepsInv(p, casing, internalId, rows, defaultId, fails, init);
      var q := ImportAll(p, rows, defaultId, casing.fold, fails, init);
      ImportOneKeepsInv(q, casing, internalId, rows, defaultId, fails, name);
    }
  }

  lemma ImportOneKeepsInv(
    p: Progress, casing: Casing, internalId: Id, rows: seq<ImportRow>, defaultId: Id, fails: string -> bool,
    name: string)
    requires Inv(p.state, casing, internalId)
    ensures
      var r := ImportOne(p, rows, defaultId, casing.fold, fails, name);
      Inv(r.state, casing, internalId) && r.state.properties == p.state.properties
  {
    if FindByName(p.state.portfolios, name) == None {
      var row := RowFor(rows, name);
      if row.Some? && row.value.serviceType.Some? && row.value.serviceType.value != "" {
        var typeName := Trim(row.value.serviceType.value);
        TypeKeepsInv(p.state, casing, internalId, Escape(typeName), typeName);
      }
      var (s1, typeId) := TypeForRow(p.state, row, defaultId, casing.fold);
      AddKeepsInv(s1, casing, internalId, name, typeId);
    }
  }

  // ---------------------------------------------------------------- runs

  datatype Op =
    | CreateOp(name: string, serviceTypeId: Id)
    | UpdateOp(access: Access, id: Id, newName: Option<string>)
    | RemoveOp(access: Access, id: Id)
    | ImportOp(rows: seq<ImportRow>, fails: string -> bool)

  function Apply(s: State, casing: Casing, op: Op): State {
    match op
    case CreateOp(name, serviceTypeId) => Create(s, casing, name, serviceTypeId).0
    case UpdateOp(access, id, name) => Update(s, casing, access, id, name).0
    case RemoveOp(access, id) => Remove(s, casing, access, id).0
    case ImportOp(rows, fails) => Import(s, casing, rows, fails).state
  }

  function ApplyAll(s: State, casing: Casing, ops: seq<Op>): State {
    if ops == [] then s else Apply(ApplyAll(s, casing, ops[..|ops| - 1]), casing, ops[|ops| - 1])
  }

  lemma ApplyKeepsInv(s: State, casing: Casing, internalId: Id, op: Op)
    requires Inv(s, casing, internalId)
    ensures Inv(Apply(s, casing, op), casing, internalId)
    ensures |Apply(s, casing, op).properties| == |s.properties|
  {
    hide Inv;
    match op
    case CreateOp(name, serviceTypeId) =>
      if FindByName(s.portfolios, name) == None {
        AddKeepsInv(s, casing, internalId, name, serviceTypeId);
      }
    case UpdateOp(access, id, name) => UpdateKeepsInv(s, casing, internalId, access, id, name);
    case RemoveOp(access, id) => RemoveKeepsInv(s, casing, internalId, access, id);
    case ImportOp(rows, fails) =>
      PlainOta();
      TypeKeepsInv(s, casing, internalId, OTA, OTA);
      var (s1, defaultId) := FindOrCreateType(s, OTA, OTA, casing.fold);
      ImportKeepsInv(Progress(s1, [], []), casing, internalId, rows, defaultId, fails, ImportNames(rows));
  }

  /** Every run keeps exactly one portfolio named "Internal Portfolio", with the same id; every property in
      an existing portfolio, and none lost; and no two service types equal up to case. */
  lemma {:induction false} RunsKeepInv(s: State, casing: Casing, internalId: Id, ops: seq<Op>)
    requires Inv(s, casing, internalId)
    ensures Inv(ApplyAll(s, casing, ops), casing, internalId)
    ensures |ApplyAll(s, casing, ops).properties| == |s.properties|
  {
    if ops != [] {
      RunsKeepInv(s, casing, internalId, ops[..|ops| - 1]);
      ApplyKeepsInv(ApplyAll(s, casing, ops[..|ops| - 1]), casing, internalId, ops[|ops| - 1]);
    }
  }

  /** Initialisation establishes the invariant on any sound tables. */
  lemma InitialisationHolds(s: State, casing: Casing)
    requires UniquePortfolios(s.portfolios) && Owned(s)
    requires forall p :: p in s.portfolios ==> p.id < s.nextId
    requires DistinctTypes(s.serviceTypes, casing.fold)
    ensures exists internalId :: Inv(EnsureInternal(s, casing), casing, internalId)
  {
    var r := EnsureInternal(s, casing);
    var found := FindByName(s.portfolios, INTERNAL);
    if found.Some? {
      assert Inv(r, casing, found.value.id);
    } else {
      PlainOta();
      TypesStayDistinct(s, OTA, OTA, casing.fold);
      var s1 := FindOrCreateType(s, OTA, OTA, casing.fold).0;
      var p := r.portfolios[|s.portfolios|];
      assert p in r.portfolios && p.id == s1.nextId && p.name == INTERNAL;
      forall x | x in r.properties
        ensures exists q :: q in r.portfolios && q.id == x.portfolioId
      {
        var q :| q in s.portfolios && q.id == x.portfolioId;
        assert q in r.portfolios;
      }
      assert Inv(r, casing, s1.nextId);
    }
  }

  // ---------------------------------------------------------------- what one call does

  /** Creating: a reserved or existing name is refused, any other adds one portfolio and nothing else. */
  lemma CreateMeans(s: State, casing: Casing, name: string, serviceTypeId: Id)
    ensures
      var (r, reply) := Create(s, casing, name, serviceTypeId);
      var reserved := casing.lower(Trim(name)) == casing.lower("Internal Portfolio");
      if reserved || exists p :: p in s.portfolios && p.name == name then r == s && reply == Conflict
      else reply == Done && r == State(s.portfolios + [Portfolio(s.nextId, name, serviceTypeId)],
                                       s.serviceTypes, s.properties, s.nextId + 1)
  {
    PresentIsFound(s.portfolios, name);
  }

  /** Updating: the refusals in the order of the checks, each leaving the tables alone; otherwise the one
      portfolio has the new name, if one is given, and nothing else changes. */
  lemma UpdateMeans(s: State, casing: Casing, access: Access, k: nat, name: Option<string>)
    requires UniquePortfolios(s.portfolios) && k < |s.portfolios|
    ensures
      var p := s.portfolios[k];
      var (r, reply) := Update(s, casing, access, p.id, name);
      var reserved := name.Some? && casing.lower(Trim(name.value)) == casing.lower("Internal Portfolio");
      var taken := name.Some? && exists q :: q in s.portfolios && q.name == name.value && q.id != p.id;
      if access.Some? && p.id !in access.value then r == s && reply == NotFound
      else if p.name == "Internal Portfolio" then r == s && reply == BadRequest
      else if reserved then r == s && reply == Conflict
      else if taken then r == s && reply == DatabaseError
      else
        && reply == Done
        && r == s.(portfolios := s.portfolios[k := if name.Some? then p.(name := name.value) else p])
  {
    var p := s.portfolios[k];
    FoundAt(s.portfolios, k);
    if name.Some? {
      var other := FindByName(s.portfolios, name.value);
      if other.Some? && other.value.id == p.id {
        SamePortfolio(s.portfolios, other.value, p);
      }
      forall q | q in s.portfolios && q.name == name.value
        ensures other == Some(q)
      {
        PresentIsFound(s.portfolios, name.value);
        SamePortfolio(s.portfolios, other.value, q);
      }
      if other == None {
        assert Rename(s.portfolios, p.id, name.value) == s.portfolios[k := p.(name := name.value)];
      }
    }
  }

  lemma FoundAt(ps: seq<Portfolio>, k: nat)
    requires UniquePortfolios(ps) && k < |ps|
    ensures FindById(ps, ps[k].id) == Some(ps[k])
  {
    var found := FindById(ps, ps[k].id);
    assert found.Some?;
    SamePortfolio(ps, found.value, ps[k]);
  }

  lemma UpdateUnknown(s: State, casing: Casing, access: Access, id: Id, name: Option<string>)
    requires forall p :: p in s.portfolios ==> p.id != id
    ensures Update(s, casing, access, id, name) == (s, NotFound)
    ensures Remove(s, casing, access, id) == (s, NotFound)
  {
  }

  /** Removing: the refusals leave the tables alone; otherwise exactly the one portfolio is gone, its
      properties belong to the Internal Portfolio, and nothing else changes. */
  lemma RemoveMeans(s: State, casing: Casing, internalId: Id, access: Access, k: nat)
    requires Inv(s, casing, internalId) && k < |s.portfolios|
    ensures
      var p := s.portfolios[k];
      var (r, reply) := Remove(s, casing, access, p.id);
      if access.Some? && p.id !in access.value then r == s && reply == NotFound
      else if p.id == internalId then r == s && reply == BadRequest
      else
        && reply == Done && r.serviceTypes == s.serviceTypes && r.nextId == s.nextId
        && r.portfolios == s.portfolios[..k] + s.portfolios[k + 1..]
        && |r.properties| == |s.properties|
        && forall i :: 0 <= i < |s.properties| ==>
             r.properties[i] == if s.properties[i].portfolioId == p.id then s.properties[i].(portfolioId := internalId)
                                else s.properties[i]
  {
    hide Inv, Owned, DistinctTypes, INTERNAL, EnsureInternal;
    var p := s.portfolios[k];
    assert UniquePortfolios(s.portfolios) by {
      InvUnique(s, casing, internalId);
    }
    FoundAt(s.portfolios, k);
    InternalIsTheOne(s, casing, internalId, p);
    InternalFound(s, casing, internalId);
    EnsureNothing(s, casing);
    InternalIsTheOne(s, casing, internalId, FindByName(s.portfolios, INTERNAL).value);
    WithoutOne(s.portfolios, k);
  }

  lemma InvUnique(s: State, casing: Casing, internalId: Id)
    requires Inv(s, casing, internalId)
    ensures UniquePortfolios(s.portfolios)
  {
  }

  lemma EnsureNothing(s: State, casing: Casing)
    requires FindByName(s.portfolios, INTERNAL).Some?
    ensures EnsureInternal(s, casing) == s
  {
  }

  lemma {:induction false} WithoutNone(ps: seq<Portfolio>, id: Id)
    requires forall p :: p in ps ==> p.id != id
    ensures Without(ps, id) == ps
  {
    if ps != [] {
      WithoutNone(ps[1..], id);
    }
  }

  lemma UniqueHead(ps: seq<Portfolio>)
    requires UniquePortfolios(ps) && ps != []
    ensures forall p :: p in ps[1..] ==> p.id != ps[0].id
  {
    assert forall i :: 0 <= i < |ps| - 1 ==> ps[1..][i] == ps[i + 1];
  }

  lemma UniqueTail(ps: seq<Portfolio>, k: nat)
    requires UniquePortfolios(ps) && 0 < k < |ps|
    ensures UniquePortfolios(ps[1..]) && ps[0].id != ps[k].id
  {
  }

  lemma CutOne(ps: seq<Portfolio>, k: nat)
    requires 0 < k < |ps|
    ensures [ps[0]] + (ps[1..][..k - 1] + ps[1..][k..]) == ps[..k] + ps[k + 1..]
  {
    assert ps[..k] == [ps[0]] + ps[1..][..k - 1];
    assert ps[1..][k..] == ps[k + 1..];
  }

  lemma WithoutStep(ps: seq<Portfolio>, id: Id)
    requires ps != []
    ensures Without(ps, id) == if ps[0].id == id then Without(ps[1..], id) else [ps[0]] + Without(ps[1..], id)
  {
  }

  lemma {:induction false} WithoutOne(ps: seq<Portfolio>, k: nat)
    requires UniquePortfolios(ps) && k < |ps|
    ensures Without(ps, ps[k].id) == ps[..k] + ps[k + 1..]
  {
    hide UniquePortfolios, Without;
    WithoutStep(ps, ps[k].id);
    if k == 0 {
      UniqueHead(ps);
      WithoutNone(ps[1..], ps[0].id);
    } else {
      UniqueTail(ps, k);
      assert ps[1..][k - 1] == ps[k];
      WithoutOne(ps[1..], k - 1);
      CutOne(ps, k);
    }
  }

  /** Initialising: the reserved portfolio is left alone, or added with a service type called OTA in some
      letter case. */
  lemma EnsureInternalMeans(s: State, casing: Casing)
    ensures
      var r := EnsureInternal(s, casing);
      if exists p :: p in s.portfolios && p.name == "Internal Portfolio" then r == s
      else
        && |r.portfolios| == |s.portfolios| + 1 && r.portfolios[..|s.portfolios|] == s.portfolios
        && r.portfolios[|s.portfolios|].name == "Internal Portfolio" && r.properties == s.properties
        && s.serviceTypes <= r.serviceTypes
        && HasType(r.serviceTypes, r.portfolios[|s.portfolios|].serviceTypeId, "OTA", casing.fold)
  {
    hide INTERNAL, OTA;
    PresentIsFound(s.portfolios, INTERNAL);
    assert INTERNAL == "Internal Portfolio" && OTA == "OTA" by {
      Names();
    }
    if FindByName(s.portfolios, INTERNAL) == None {
      PlainOta();
      FindOrCreateMeans(s, OTA, OTA, casing.fold);
    }
  }

  lemma Names()
    ensures INTERNAL == "Internal Portfolio" && OTA == "OTA"
  {
  }

  /** The service type with this id has the name up to case. */
  predicate HasType(types: seq<ServiceType>, id: Id, name: string, fold: Fold) {
    exists t :: t in types && t.id == id && EqualFold(name, t.name, fold)
  }

  /** Find-or-create gives the first service type of that name up to case, creating nothing; or, exactly when
      there is none, one new type of that name, ordered behind all others. */
  lemma FindOrCreateMeans(s: State, pattern: string, name: string, fold: Fold)
    requires pattern == Escape(name) || (pattern == name && Plain(name))
    ensures
      var (r, id) := FindOrCreateType(s, pattern, name, fold);
      && r.portfolios == s.portfolios && r.properties == s.properties
      && s.serviceTypes <= r.serviceTypes && HasType(r.serviceTypes, id, name, fold)
      && (r == s <==> exists t :: t in s.serviceTypes && EqualFold(name, t.name, fold))
      && (r == s ==>
            exists i :: 0 <= i < |s.serviceTypes| && s.serviceTypes[i].id == id
                        && FirstNamed(s.serviceTypes, i, name, fold))
      && (r != s ==>
            && id == s.nextId && r.nextId == s.nextId + 1 && |r.serviceTypes| == |s.serviceTypes| + 1
            && var t := r.serviceTypes[|s.serviceTypes|];
            && t.id == id && t.name == name && (s.serviceTypes == [] ==> t.order == 1)
            && forall i :: 0 <= i < |s.serviceTypes| ==> s.serviceTypes[i].order < t.order)
  {
    var (r, id) := FindOrCreateType(s, pattern, name, fold);
    EscapeIsLiteral(name);
    UnescapedIsLiteralIffPlain(name);
    assert forall text :: Matches(pattern, text, fold) <==> EqualFold(name, text, fold);
    MaxOrderBounds(s.serviceTypes);
    var found := FindType(s.serviceTypes, pattern, fold);
    if found.Some? {
      FirstMatch(s.serviceTypes, pattern, fold);
      var i :| 0 <= i < |s.serviceTypes| && s.serviceTypes[i] == found.value
               && forall j :: 0 <= j < i ==> !Matches(pattern, s.serviceTypes[j].name, fold);
      assert FirstNamed(s.serviceTypes, i, name, fold);
      assert r == s;
    } else {
      var t := r.serviceTypes[|s.serviceTypes|];
      assert t in r.serviceTypes && EqualFold(name, t.name, fold);
    }
  }

  predicate FirstNamed(types: seq<ServiceType>, i: nat, name: string, fold: Fold)
    requires i < |types|
  {
    EqualFold(name, types[i].name, fold) && forall j :: 0 <= j < i ==> !EqualFold(name, types[j].name, fold)
  }

  lemma {:induction false} FirstMatch(types: seq<ServiceType>, pattern: string, fold: Fold)
    requires FindType(types, pattern, fold).Some?
    ensures exists i :: 0 <= i < |types| && types[i] == FindType(types, pattern, fold).value
                        && forall j :: 0 <= j < i ==> !Matches(pattern, types[j].name, fold)
  {
    hide Matches;
    if !Matches(pattern, types[0].name, fold) {
      var tail := types[1..];
      FirstMatch(tail, pattern, fold);
      var i :| 0 <= i < |tail| && tail[i] == FindType(tail, pattern, fold).value
               && forall j :: 0 <= j < i ==> !Matches(pattern, tail[j].name, fold);
      assert types[i + 1] == tail[i];
      assert forall j :: 0 < j < i + 1 ==> types[j] == tail[j - 1];
    }
  }

  lemma {:induction false} MaxOrderBounds(types: seq<ServiceType>)
    ensures types == [] ==> MaxOrder(types) == 0
    ensures forall i :: 0 <= i < |types| ==> types[i].order <= MaxOrder(types)
  {
    if |types| > 1 {
      MaxOrderBounds(types[1..]);
      assert forall i :: 0 < i < |types| ==> types[i] == types[1..][i - 1];
    }
  }

  /** The service type a row asks for: its own cell when filled, trimmed, and OTA otherwise. */
  function WantedType(row: ImportRow): string {
    if row.serviceType.Some? && row.serviceType.value != "" then Trim(row.serviceType.value) else "OTA"
  }

  /** The portfolio cell shows the name; a missing cell prints as the word undefined. */
  predicate Shows(row: ImportRow, name: string) {
    if row.portfolio == None then name == "undefined" else Trim(row.portfolio.value) == name
  }

  /** Row `i` is the first of the sheet that shows this portfolio name. */
  predicate FirstRow(rows: seq<ImportRow>, i: nat, name: string)
    requires i < |rows|
  {
    Shows(rows[i], name) && forall j :: 0 <= j < i ==> !Shows(rows[j], name)
  }

  /** The portfolio has the service type that the first row of its name asks for. */
  predicate TypedBySheet(rows: seq<ImportRow>, types: seq<ServiceType>, p: Portfolio, fold: Fold) {
    exists i :: 0 <= i < |rows| && FirstRow(rows, i, p.name)
        && HasType(types, p.serviceTypeId, WantedType(rows[i]), fold)
  }

  /** `findIndex` finds the first row of a name of the sheet. */
  lemma {:induction false} RowForIsFirst(rows: seq<ImportRow>, name: string)
    requires InSheet(rows, name)
    ensures exists i :: 0 <= i < |rows| && FirstRow(rows, i, name) && RowFor(rows, name) == Some(rows[i])
  {
    if CellText(rows[0].portfolio) == name {
      assert FirstRow(rows, 0, name);
    } else {
      var tail := rows[1..];
      assert InSheet(tail, name) by {
        var i :| 0 <= i < |rows| && rows[i].portfolio.Some? && Trim(rows[i].portfolio.value) == name;
        assert tail[i - 1] == rows[i];
      }
      RowForIsFirst(tail, name);
      var i :| 0 <= i < |tail| && FirstRow(tail, i, name) && RowFor(tail, name) == Some(tail[i]);
      assert forall j :: 0 < j < |rows| ==> rows[j] == tail[j - 1];
      assert FirstRow(rows, i + 1, name);
    }
  }

  lemma ImportOneTypes(
    p: Progress, rows: seq<ImportRow>, defaultId: Id, fold: Fold, fails: string -> bool, name: string)
    requires InSheet(rows, name) && HasType(p.state.serviceTypes, defaultId, "OTA", fold)
    ensures
      var r := ImportOne(p, rows, defaultId, fold, fails, name);
      && p.state.serviceTypes <= r.state.serviceTypes
      && forall x :: x in r.state.portfolios ==>
           x in p.state.portfolios || TypedBySheet(rows, r.state.serviceTypes, x, fold)
  {
    hide Escape, Trim, EqualFold, MaxOrder, OTA, FindType, FirstRow, InSheet, HasType;
    RowForIsFirst(rows, name);
    var i :| 0 <= i < |rows| && FirstRow(rows, i, name) && RowFor(rows, name) == Some(rows[i]);
    if rows[i].serviceType.Some? && rows[i].serviceType.value != "" {
      var typeName := Trim(rows[i].serviceType.value);
      FindOrCreateMeans(p.state, Escape(typeName), typeName, fold);
    }
    var (s1, typeId) := TypeForRow(p.state, Some(rows[i]), defaultId, fold);
    assert HasType(s1.serviceTypes, typeId, WantedType(rows[i]), fold);
    var r := ImportOne(p, rows, defaultId, fold, fails, name);
    forall x | x in r.state.portfolios && x !in p.state.portfolios
      ensures TypedBySheet(rows, r.state.serviceTypes, x, fold)
    {
      assert x == Portfolio(s1.nextId, name, typeId);
    }
  }

  lemma HasTypeGrows(types: seq<ServiceType>, more: seq<ServiceType>, id: Id, name: string, fold: Fold)
    requires HasType(types, id, name, fold) && types <= more
    ensures HasType(more, id, name, fold)
  {
    var t :| t in types && t.id == id && EqualFold(name, t.name, fold);
    assert t in more;
  }

  /** Every portfolio that an import creates has the service type its first row asks for. */
  lemma {:induction false} ImportTypes(
    p: Progress, rows: seq<ImportRow>, defaultId: Id, fold: Fold, fails: string -> bool, names: seq<string>)
    requires forall name :: name in names ==> InSheet(rows, name)
    requires HasType(p.state.serviceTypes, defaultId, "OTA", fold)
    ensures
      var r := ImportAll(p, rows, defaultId, fold, fails, names);
      && p.state.serviceTypes <= r.state.serviceTypes
      && forall x :: x in r.state.portfolios ==>
           x in p.state.portfolios || TypedBySheet(rows, r.state.serviceTypes, x, fold)
  {
    if names != [] {
      hide ImportOne, HasType, FirstRow, InSheet;
      var init, name := names[..|names| - 1], names[|names| - 1];
      assert forall n :: n in init ==> n in names;
      ImportTypes(p, rows, defaultId, fold, fails, init);
      var q := ImportAll(p, rows, defaultId, fold, fails, init);
      HasTypeGrows(p.state.serviceTypes, q.state.serviceTypes, defaultId, "OTA", fold);
      ImportOneTypes(q, rows, defaultId, fold, fails, name);
      var r := ImportOne(q, rows, defaultId, fold, fails, name);
      forall x | x in q.state.portfolios && TypedBySheet(rows, q.state.serviceTypes, x, fold)
        ensures TypedBySheet(rows, r.state.serviceTypes, x, fold)
      {
        var i :| 0 <= i < |rows| && FirstRow(rows, i, x.name)
                 && HasType(q.state.serviceTypes, x.serviceTypeId, WantedType(rows[i]), fold);
        HasTypeGrows(q.state.serviceTypes, r.state.serviceTypes, x.serviceTypeId, WantedType(rows[i]), fold);
      }
    }
  }

  /** The whole import: the names of the sheet are tried in order of first appearance, and every portfolio it
      creates has the service type that the first row of its name asks for. */
  lemma ImportedTypes(s: State, casing: Casing, rows: seq<ImportRow>, fails: string -> bool)
    ensures
      var r := Import(s, casing, rows, fails).state;
      forall x :: x in r.portfolios ==> x in s.portfolios || TypedBySheet(rows, r.serviceTypes, x, casing.fold)
  {
    hide ImportAll, ImportNames, InSheet, HasType, FirstRow, OTA;
    assert OTA == "OTA" by {
      Names();
    }
    PlainOta();
    FindOrCreateMeans(s, OTA, OTA, casing.fold);
    var (s1, defaultId) := FindOrCreateType(s, OTA, OTA, casing.fold);
    ImportNamesDistinct(rows);
    ImportTypes(Progress(s1, [], []), rows, defaultId, casing.fold, fails, ImportNames(rows));
  }

  /** The names of the first rows come first. */
  lemma {:induction false} ImportNamesPrefix(rows: seq<ImportRow>, n: nat)
    requires n <= |rows|
    ensures ImportNames(rows[..n]) <= ImportNames(rows)
  {
    if n < |rows| {
      ImportNamesPrefix(rows[..|rows| - 1], n);
      assert rows[..|rows| - 1][..n] == rows[..n];
    } else {
      assert rows[..n] == rows;
    }
  }

  // ---------------------------------------------------------------- what an import reports

  /** Some portfolio cell of the sheet holds the name, perhaps padded. */
  predicate InSheet(rows: seq<ImportRow>, name: string) {
    exists i :: 0 <= i < |rows| && rows[i].portfolio.Some? && Trim(rows[i].portfolio.value) == name
  }

  lemma {:induction false} ImportNamesDistinct(rows: seq<ImportRow>)
    ensures Distinct(ImportNames(rows))
    ensures forall name :: name in ImportNames(rows) <==> name != "" && InSheet(rows, name)
  {
    if rows != [] {
      var init, last := rows[..|rows| - 1], rows[|rows| - 1];
      ImportNamesDistinct(init);
      assert rows == init + [last];
      assert rows[|init|] == last;
      forall name | name in ImportNames(init)
        ensures InSheet(rows, name)
      {
        var i :| 0 <= i < |init| && init[i].portfolio.Some? && Trim(init[i].portfolio.value) == name;
        assert rows[i] == init[i];
      }
    }
  }

  /** One name is either created, and then found, or skipped. */
  lemma ImportOneSplits(
    p: Progress, rows: seq<ImportRow>, defaultId: Id, fold: Fold, fails: string -> bool, name: string)
    ensures
      var r := ImportOne(p, rows, defaultId, fold, fails, name);
      && p.state.portfolios <= r.state.portfolios
      && ((r.created == p.created + [name] && r.skipped == p.skipped && |r.state.portfolios| == |p.state.portfolios| + 1
           && r.state.portfolios[|p.state.portfolios|].name == name
           && FindByName(p.state.portfolios, name) == None)
          || (r.created == p.created && r.skipped == p.skipped + [name] && r.state.portfolios == p.state.portfolios))
  {
  }

  lemma ImportAllStep(
    p: Progress, rows: seq<ImportRow>, defaultId: Id, fold: Fold, fails: string -> bool, names: seq<string>)
    ensures names == [] ==> ImportAll(p, rows, defaultId, fold, fails, names) == p
    ensures names != [] ==> (
              var before := ImportAll(p, rows, defaultId, fold, fails, names[..|names| - 1]);
              ImportAll(p, rows, defaultId, fold, fails, names)
                  == ImportOne(before, rows, defaultId, fold, fails, names[|names| - 1]))
  {
    hide ImportOne;
  }

  /** The names of an import are exactly split into created and skipped. */
  lemma {:induction false} ImportSplits(
    p: Progress, rows: seq<ImportRow>, defaultId: Id, fold: Fold, fails: string -> bool, names: seq<string>)
    ensures
      var r := ImportAll(p, rows, defaultId, fold, fails, names);
      multiset(r.created) + multiset(r.skipped) == multiset(p.created) + multiset(p.skipped) + multiset(names)
  {
    if names != [] {
      hide ImportOne, ImportAll;
      var init, name := names[..|names| - 1], names[|names| - 1];
      ImportSplits(p, rows, defaultId, fold, fails, init);
      var q := ImportAll(p, rows, defaultId, fold, fails, init);
      ImportAllStep(p, rows, defaultId, fold, fails, names);
      ImportOneSplits(q, rows, defaultId, fold, fails, name);
      var start := multiset(p.created) + multiset(p.skipped);
      CountOne(q, ImportOne(q, rows, defaultId, fold, fails, name), name, start + multiset(init));
      Append(init, name);
      assert names == init + [name];
      assert start + multiset(init) + multiset{name} == start + multiset(names);
    } else {
      ImportAllStep(p, rows, defaultId, fold, fails, names);
    }
  }

  lemma Append(names: seq<string>, name: string)
    ensures multiset(names + [name]) == multiset(names) + multiset{name}
  {
  }

  lemma CountOne(q: Progress, r: Progress, name: string, counted: multiset<string>)
    requires multiset(q.created) + multiset(q.skipped) == counted
    requires (r.created == q.created + [name] && r.skipped == q.skipped)
        || (r.created == q.created && r.skipped == q.skipped + [name])
    ensures multiset(r.created) + multiset(r.skipped) == counted + multiset{name}
  {
    Append(q.created, name);
    Append(q.skipped, name);
  }

  predicate Present(ps: seq<Portfolio>, name: string) {
    exists p :: p in ps && p.name == name
  }

  /** An import only adds portfolios, namely those it reports as created. */
  lemma {:induction false} ImportAddsCreated(
    p: Progress, rows: seq<ImportRow>, defaultId: Id, fold: Fold, fails: string -> bool, names: seq<string>)
    requires p.created == []
    ensures
      var r := ImportAll(p, rows, defaultId, fold, fails, names);
      && p.state.portfolios <= r.state.portfolios
      && (forall x :: x in r.state.portfolios ==> x in p.state.portfolios || x.name in r.created)
      && (forall name :: name in r.created ==> Present(r.state.portfolios, name) && !Present(p.state.portfolios, name))
  {
    if names != [] {
      hide ImportOne;
      var init, name := names[..|names| - 1], names[|names| - 1];
      ImportAddsCreated(p, rows, defaultId, fold, fails, init);
      var q := ImportAll(p, rows, defaultId, fold, fails, init);
      var r := ImportOne(q, rows, defaultId, fold, fails, name);
      ImportOneSplits(q, rows, defaultId, fold, fails, name);
      forall n | n in r.created
        ensures Present(r.state.portfolios, n) && !Present(p.state.portfolios, n)
      {
        if n in q.created {
          var x :| x in q.state.portfolios && x.name == n;
          assert x in r.state.portfolios;
        } else {
          assert r.state.portfolios[|q.state.portfolios|] in r.state.portfolios;
          assert forall x :: x in p.state.portfolios ==> x in q.state.portfolios;
        }
      }
    }
  }

  /** No other portfolio bears the reserved name in another spelling. */
  predicate NoVariants(s: State, casing: Casing, internalId: Id) {
    forall p :: p in s.portfolios && IsReserved(p.name, casing) ==> p.id == internalId
  }

  /** Creation, update and removal keep the reserved name free of variants. */
  lemma NoVariantsWithoutImport(s: State, casing: Casing, internalId: Id, op: Op)
    requires Inv(s, casing, internalId) && NoVariants(s, casing, internalId) && !op.ImportOp?
    ensures NoVariants(Apply(s, casing, op), casing, internalId)
  {
    hide Inv, IsReserved, Rename;
    match op
    case CreateOp(name, serviceTypeId) =>
    case UpdateOp(access, id, name) =>
      if name.Some? {
        RenameKeepsNoVariants(s, casing, internalId, id, name.value);
      }
    case RemoveOp(access, id) =>
      InternalFound(s, casing, internalId);
      assert EnsureInternal(s, casing) == s;
  }

  lemma RenameKeepsNoVariants(s: State, casing: Casing, internalId: Id, id: Id, name: string)
    requires NoVariants(s, casing, internalId)
    ensures !IsReserved(name, casing) ==>
        NoVariants(s.(portfolios := Rename(s.portfolios, id, name)), casing, internalId)
  {
    hide IsReserved;
    var r := Rename(s.portfolios, id, name);
    if !IsReserved(name, casing) {
      forall p | p in r && IsReserved(p.name, casing)
        ensures p.id == internalId
      {
        var i :| 0 <= i < |r| && r[i] == p;
        assert s.portfolios[i] in s.portfolios;
      }
    }
  }

  lemma InternalFound(s: State, casing: Casing, internalId: Id)
    requires Inv(s, casing, internalId)
    ensures FindByName(s.portfolios, INTERNAL).Some?
  {
    var p :| p in s.portfolios && p.id == internalId && p.name == INTERNAL;
  }

  /** The names an import creates are exactly those that are absent and not refused. */
  lemma {:induction false} CreatedExactly(
    p: Progress, rows: seq<ImportRow>, defaultId: Id, fold: Fold, fails: string -> bool, names: seq<string>)
    requires p.created == [] && Distinct(names)
    ensures
      var r := ImportAll(p, rows, defaultId, fold, fails, names);
      && (forall name :: name in r.created <==>
            name in names && FindByName(p.state.portfolios, name) == None && !fails(name))
      && (forall name :: Present(r.state.portfolios, name) <==>
            Present(p.state.portfolios, name) || name in r.created)
  {
    if names != [] {
      hide ImportOne, Present;
      var init, name := names[..|names| - 1], names[|names| - 1];
      CreatedExactly(p, rows, defaultId, fold, fails, init);
      assert names == init + [name];
      assert name !in init;
      var q := ImportAll(p, rows, defaultId, fold, fails, init);
      ImportOneExactly(q, rows, defaultId, fold, fails, name);
      PresentIsFound(p.state.portfolios, name);
      PresentIsFound(q.state.portfolios, name);
    }
  }

  lemma PresentIsFound(ps: seq<Portfolio>, name: string)
    ensures Present(ps, name) <==> FindByName(ps, name).Some?
  {
    if Present(ps, name) {
      var p :| p in ps && p.name == name;
      var i :| 0 <= i < |ps| && ps[i] == p;
      assert ps[i].name == name;
    }
  }

  lemma ImportOneExactly(
    p: Progress, rows: seq<ImportRow>, defaultId: Id, fold: Fold, fails: string -> bool, name: string)
    ensures
      var r := ImportOne(p, rows, defaultId, fold, fails, name);
      var creates := FindByName(p.state.portfolios, name) == None && !fails(name);
      && r.created == p.created + (if creates then [name] else [])
      && forall n :: Present(r.state.portfolios, n) <==> Present(p.state.portfolios, n) || (creates && n == name)
  {
    var r := ImportOne(p, rows, defaultId, fold, fails, name);
    var before := p.state.portfolios;
    if FindByName(before, name) == None && !fails(name) {
      var added := r.state.portfolios[|before|];
      assert r.state.portfolios == before + [added] && added.name == name;
      forall n
        ensures Present(r.state.portfolios, n) <==> Present(before, n) || n == name
      {
        assert added in r.state.portfolios;
        assert forall x :: x in r.state.portfolios <==> x in before || x == added;
      }
    }
  }

  /** The import does not check for the reserved name: it keeps variants out exactly when every spelling
      of it in the sheet is the exact one or is refused by the database. */
  lemma ImportVariantsExact(s: State, casing: Casing, internalId: Id, rows: seq<ImportRow>, fails: string -> bool)
    requires Inv(s, casing, internalId) && NoVariants(s, casing, internalId)
    ensures
      NoVariants(Import(s, casing, rows, fails).state, casing, internalId) <==>
      forall name :: name in ImportNames(rows) && IsReserved(name, casing) ==> name == INTERNAL || fails(name)
  {
    hide IsReserved, ImportAll, ImportNames, Inv, Present, FindByName, INTERNAL, NoVariants;
    var names := ImportNames(rows);
    var r := Import(s, casing, rows, fails);
    var (s1, defaultId) := FindOrCreateType(s, OTA, OTA, casing.fold);
    var start := Progress(s1, [], []);
    ImportNamesDistinct(rows);
    CreatedExactly(start, rows, defaultId, casing.fold, fails, names);
    PlainOta();
    TypeKeepsInv(s, casing, internalId, OTA, OTA);
    ImportKeepsInv(start, casing, internalId, rows, defaultId, fails, names);
    VariantsByName(s, casing, internalId);
    VariantsByName(r.state, casing, internalId);
    InternalFound(s, casing, internalId);
    forall name
      ensures Present(s.portfolios, name) <==> FindByName(s.portfolios, name).Some?
    {
      PresentIsFound(s.portfolios, name);
    }
  }

  /** Variants are absent exactly when no other name present is reserved. */
  lemma VariantsByName(s: State, casing: Casing, internalId: Id)
    requires Inv(s, casing, internalId)
    ensures NoVariants(s, casing, internalId) <==>
            forall name :: Present(s.portfolios, name) && IsReserved(name, casing) ==> name == INTERNAL
  {
    hide IsReserved, Inv;
    forall p | p in s.portfolios
      ensures p.id == internalId <==> p.name == INTERNAL
    {
      InternalIsTheOne(s, casing, internalId, p);
    }
    if NoVariants(s, casing, internalId) {
      forall name | Present(s.portfolios, name) && IsReserved(name, casing)
        ensures name == INTERNAL
      {
        var p :| p in s.portfolios && p.name == name;
      }
    } else {
      var p :| p in s.portfolios && IsReserved(p.name, casing) && p.id != internalId;
      assert Present(s.portfolios, p.name);
    }
  }

  const VARIANT := "internal portfolio"

  lemma VariantIsReserved(fold: Fold)
    ensures Trim(VARIANT) == VARIANT && IsReserved(VARIANT, Casing(LowerWord, fold))
  {
    UnpaddedTrim(VARIANT);
    assert LowerWord(VARIANT) == LowerWord(INTERNAL);
  }

  /** An import can create a portfolio that differs from the reserved name only in letter case. */
  lemma ImportCreatesVariant(fold: Fold)
    ensures
      var casing := Casing(LowerWord, fold);
      var s := State([Portfolio(0, INTERNAL, 1)], [ServiceType(1, OTA, 1)], [], 2);
      var r := Import(s, casing, [ImportRow(Some(VARIANT), None)], name => false);
      Inv(s, casing, 0) && r.created == [VARIANT] && IsReserved(VARIANT, casing)
  {
    hide IsReserved, Trim;
    var casing := Casing(LowerWord, fold);
    var s := State([Portfolio(0, INTERNAL, 1)], [ServiceType(1, OTA, 1)], [], 2);
    var row := ImportRow(Some(VARIANT), None);
    VariantIsReserved(fold);
    assert s.portfolios[0] in s.portfolios;
    assert VARIANT[0] != INTERNAL[0];
    assert [row][..0] == [];
    assert ImportNames([]) == [];
    assert ImportNames([row]) == [VARIANT];
    var (s1, defaultId) := FindOrCreateType(s, OTA, OTA, fold);
    ImportOneName(Progress(s1, [], []), [row], defaultId, fold, VARIANT);
  }

  lemma ImportOneName(p: Progress, rows: seq<ImportRow>, defaultId: Id, fold: Fold, name: string)
    requires FindByName(p.state.portfolios, name) == None
    ensures ImportAll(p, rows, defaultId, fold, n => false, [name]).created == p.created + [name]
  {
    assert [name][..0] == [];
  }
}
