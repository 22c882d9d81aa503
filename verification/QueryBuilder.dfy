/** The query builder: it turns a search term, filters and a base condition into one Prisma
    `where` object. This module gives such objects a meaning over records and proves what the
    built object means. */
module QueryBuilder {
  import opened Basics
  import opened Text

  /** Filter values, as far as the builder distinguishes them. `Opaque` stands for parsed values
      and operator objects such as {gte: 5}, whose meaning the database gives. */
  datatype Value = Opaque(text: string) | Falsy(text: string) | Contains(term: string) | Exactly(term: string)

  /** A `where` object: keys in insertion order, each with a test, a nested object or a list of alternatives. */
  datatype Node =
    | Test(value: Value)
    | Object(fields: Fields)
    | AnyOf(alternatives: seq<Fields>)

  datatype Fields = Nil | Field(key: string, node: Node, rest: Fields)

  /** A record: a scalar, or the fields and relations by name. */
  datatype Record = Scalar(content: string) | Entity(members: map<string, Record>)

  /** How the database decides a test on a value. */
  type Matcher = (Value, Record) -> bool

  function Member(r: Record, key: string): Record {
    if r.Entity? && key in r.members then r.members[key] else Scalar("")
  }

  predicate Holds(n: Node, key: string, r: Record, m: Matcher)
    decreases n
  {
    match n
    case Test(v) => m(v, Member(r, key))
    case Object(fs) => AllHold(fs, Member(r, key), m)
    case AnyOf(alternatives) => exists i :: 0 <= i < |alternatives| && AllHold(alternatives[i], r, m)
  }

  /** A `where` object holds of a record when each of its keys does. */
  predicate AllHold(fs: Fields, r: Record, m: Matcher)
    decreases fs
  {
    match fs
    case Nil => true
    case Field(key, node, rest) => Holds(node, key, r, m) && AllHold(rest, r, m)
  }

  function Keys(fs: Fields): set<string> {
    match fs
    case Nil => {}
    case Field(key, _, rest) => {key} + Keys(rest)
  }

  predicate UniqueKeys(fs: Fields) {
    match fs
    case Nil => true
    case Field(key, _, rest) => key !in Keys(rest) && UniqueKeys(rest)
  }

  /** Assignment of one key: an existing key keeps its place. */
  function Put(fs: Fields, key: string, node: Node): (r: Fields)
    ensures Keys(r) == Keys(fs) + {key}
  {
    match fs
    case Nil => Field(key, node, Nil)
    case Field(k, n, rest) => if k == key then Field(k, node, rest) else Field(k, n, Put(rest, key, node))
  }

  function Get(fs: Fields, key: string): (r: Option<Node>)
    ensures r.Some? <==> key in Keys(fs)
  {
    match fs
    case Nil => None
    case Field(k, n, rest) => if k == key then Some(n) else Get(rest, key)
  }

  /** `{...a, ...b}` */
  function Spread(a: Fields, b: Fields): (r: Fields)
    ensures Keys(r) == Keys(a) + Keys(b)
    decreases b
  {
    match b
    case Nil => a
    case Field(k, n, rest) => Spread(Put(a, k, n), rest)
  }

  /** The object without the given keys. */
  function Drop(fs: Fields, keys: set<string>): Fields {
    match fs
    case Nil => Nil
    case Field(k, n, rest) => if k in keys then Drop(rest, keys) else Field(k, n, Drop(rest, keys))
  }

  // ---------------------------------------------------------------- meaning of spreads

  lemma {:induction false} DropNothing(fs: Fields, keys: set<string>)
    requires Keys(fs) !! keys
    ensures Drop(fs, keys) == fs
  {
    if fs.Field? {
      DropNothing(fs.rest, keys);
    }
  }

  lemma {:induction false} DropTwice(fs: Fields, a: set<string>, b: set<string>)
    ensures Drop(Drop(fs, a), b) == Drop(fs, a + b)
  {
    if fs.Field? {
      DropTwice(fs.rest, a, b);
    }
  }

  lemma {:induction false} PutUnique(fs: Fields, key: string, node: Node)
    requires UniqueKeys(fs)
    ensures UniqueKeys(Put(fs, key, node))
  {
    if fs.Field? {
      PutUnique(fs.rest, key, node);
    }
  }

  /** Assigning a key replaces whatever that key demanded and keeps the rest. */
  lemma {:induction false} PutMeans(fs: Fields, key: string, node: Node, r: Record, m: Matcher)
    requires UniqueKeys(fs)
    ensures AllHold(Put(fs, key, node), r, m) <==> AllHold(Drop(fs, {key}), r, m) && Holds(node, key, r, m)
  {
    if fs.Field? {
      if fs.key == key {
        DropNothing(fs.rest, {key});
      } else {
        PutMeans(fs.rest, key, node, r, m);
      }
    }
  }

  lemma {:induction false} DropPut(fs: Fields, key: string, node: Node, keys: set<string>)
    requires key !in keys
    ensures Drop(Put(fs, key, node), keys) == Put(Drop(fs, keys), key, node)
  {
    if fs.Field? && fs.key != key {
      DropPut(fs.rest, key, node, keys);
    }
  }

  lemma {:induction false} DropUnique(fs: Fields, keys: set<string>)
    requires UniqueKeys(fs)
    ensures UniqueKeys(Drop(fs, keys)) && Keys(Drop(fs, keys)) == Keys(fs) - keys
  {
    if fs.Field? {
      DropUnique(fs.rest, keys);
    }
  }

  /** A spread means the second object, together with the keys of the first that it does not overwrite. */
  lemma {:induction false} SpreadMeans(a: Fields, b: Fields, r: Record, m: Matcher)
    requires UniqueKeys(a) && UniqueKeys(b)
    ensures UniqueKeys(Spread(a, b))
    ensures AllHold(Spread(a, b), r, m) <==> AllHold(Drop(a, Keys(b)), r, m) && AllHold(b, r, m)
    decreases b
  {
    if b.Field? {
      PutUnique(a, b.key, b.node);
      SpreadMeans(Put(a, b.key, b.node), b.rest, r, m);
      DropPut(a, b.key, b.node, Keys(b.rest));
      DropUnique(a, Keys(b.rest));
      PutMeans(Drop(a, Keys(b.rest)), b.key, b.node, r, m);
      DropTwice(a, Keys(b.rest), {b.key});
      assert Keys(b.rest) + {b.key} == Keys(b);
    } else {
      DropNothing(a, {});
    }
  }

  // ---------------------------------------------------------------- paths

  /** `path.split('.')`: the part before the first dot, and the remaining parts. */
  function Split(path: string): (parts: seq<string>)
    ensures parts != []
  {
    if path == "" then [""]
    else
      var rest := Split(path[1..]);
      if path[0] == '.' then [""] + rest else [[path[0]] + rest[0]] + rest[1..]
  }

  /** The nested object that demands `value` at the end of the path. */
  function Nest(parts: seq<string>, value: Value): (r: Fields)
    requires parts != []
  {
    if |parts| == 1 then Field(parts[0], Test(value), Nil)
    else Field(parts[0], Object(Nest(parts[1..], value)), Nil)
  }

  /** Wraps the condition from the last part outwards. */
  method BuildNestedSearchCondition(fieldPath: string, value: Value) returns (condition: Fields)
    ensures condition == Nest(Split(fieldPath), value)
  {
    var parts := Split(fieldPath);
    var i := |parts| - 1;
    condition := Field(parts[i], Test(value), Nil);
    while i > 0
      invariant 0 <= i < |parts|
      invariant condition == Nest(parts[i..], value)
    {
      i := i - 1;
      assert parts[i..][1..] == parts[i + 1..];
      condition := Field(parts[i], Object(condition), Nil);
    }
    assert parts[0..] == parts;
  }

  function At(r: Record, parts: seq<string>): Record
    decreases |parts|
  {
    if parts == [] then r else At(Member(r, parts[0]), parts[1..])
  }

  /** A nested condition is its innermost test at the end of the path, at any depth. */
  lemma {:induction false} NestMeans(parts: seq<string>, value: Value, r: Record, m: Matcher)
    requires parts != []
    ensures AllHold(Nest(parts, value), r, m) <==> m(value, At(r, parts))
  {
    if |parts| == 1 {
      assert parts[1..] == [];
      assert At(Member(r, parts[0]), []) == Member(r, parts[0]);
    } else {
      NestMeans(parts[1..], value, Member(r, parts[0]), m);
    }
  }

  // ---------------------------------------------------------------- search

  type NestedMap = map<string, string>

  predicate IsAll(s: string) {
    LowerWord(s) == "all"
  }

  predicate ShouldIgnore(term: Option<string>) {
    term == None || term.value == "" || IsAll(term.value)
  }

  predicate IsHex(c: char) {
    '0' <= c <= '9' || 'a' <= c <= 'f' || 'A' <= c <= 'F'
  }

  predicate IsObjectId(s: string) {
    |s| == 24 && forall i :: 0 <= i < 24 ==> IsHex(s[i])
  }

  predicate EndsWith(s: string, suffix: string) {
    |suffix| <= |s| && s[|s| - |suffix|..] == suffix
  }

  predicate IsIdField(field: string) {
    field == "id" || field == "_id" || EndsWith(field, "_id")
  }

  /** A mapping to the empty path counts as no mapping. */
  function Target(field: string, nested: NestedMap): string {
    if field in nested && nested[field] != "" then nested[field] else field
  }

  predicate IsNested(field: string, nested: NestedMap) {
    (field in nested && nested[field] != "") || '.' in field
  }

  function SearchCondition(field: string, term: string, nested: NestedMap): Option<Fields> {
    if IsIdField(field) && !IsObjectId(term) then None
    else if IsNested(field, nested) then Some(Nest(Split(Target(field, nested)), Contains(term)))
    else if IsIdField(field) then Some(Field(field, Test(Exactly(term)), Nil))
    else Some(Field(field, Test(Contains(term)), Nil))
  }

  function SearchConditions(fields: seq<string>, term: string, nested: NestedMap): seq<Fields> {
    if fields == [] then []
    else
      SearchConditions(fields[..|fields| - 1], term, nested)
      + match SearchCondition(fields[|fields| - 1], term, nested)
        case None => []
        case Some(c) => [c]
  }

  function BuildSearchWhere(term: Option<string>, fields: seq<string>, nested: NestedMap): Fields {
    if ShouldIgnore(term) || fields == [] then Nil
    else
      var conditions := SearchConditions(fields, term.value, nested);
      if |conditions| > 1 then Field("OR", AnyOf(conditions), Nil)
      else if |conditions| == 1 then conditions[0]
      else Nil
  }

  /** Id fields are `id` and every name that ends in `_id`. */
  lemma IdFieldExactly(field: string)
    ensures IsIdField(field) <==> field == "id" || exists prefix :: field == prefix + "_id"
  {
    if IsIdField(field) && field != "id" {
      var prefix := field[..|field| - 3];
      assert field == prefix + field[|field| - 3..];
    }
    if exists prefix :: field == prefix + "_id" {
      var prefix :| field == prefix + "_id";
      assert field[|prefix|..] == "_id";
    }
  }

  /** An ObjectId is a text of 24 hexadecimal digits. */
  lemma ObjectIdExactly(s: string)
    ensures IsObjectId(s) <==> |s| == 24 && forall c :: c in s ==> c in "0123456789abcdefABCDEF"
  {
    hide IsHex;
    forall c: char
      ensures IsHex(c) <==> c in "0123456789abcdefABCDEF"
    {
      HexDigits(c);
    }
  }

  lemma HexDigits(c: char)
    ensures IsHex(c) <==> c in "0123456789abcdefABCDEF"
  {
    var digits := "0123456789abcdefABCDEF";
    if '0' <= c <= '9' {
      assert digits[c as int - 48] == c;
    } else if 'a' <= c <= 'f' {
      assert digits[c as int - 87] == c;
    } else if 'A' <= c <= 'F' {
      assert digits[c as int - 49] == c;
    }
  }

  /** The word "all" is ignored in each of its eight spellings, and no other text but the empty one. */
  lemma IgnoredExactly(s: string)
    ensures ShouldIgnore(Some(s)) <==>
            s == "" || (|s| == 3 && s[0] in {'a', 'A'} && s[1] in {'l', 'L'} && s[2] in {'l', 'L'})
    ensures ShouldIgnore(None)
  {
    var w := LowerWord(s);
    assert |"all"| == 3;
    assert w == "all" <==> |w| == 3 && w[0] == 'a' && w[1] == 'l' && w[2] == 'l';
  }

  /** The field takes part in the search: id fields do only when the term is an ObjectId. */
  predicate Survives(field: string, term: string) {
    !IsIdField(field) || IsObjectId(term)
  }

  /** The record matches the term in the field: exactly for a direct id field, else by containment. */
  predicate FieldMatches(field: string, term: string, nested: NestedMap, r: Record, m: Matcher) {
    var direct := !(field in nested && nested[field] != "") && '.' !in field;
    m(if direct && IsIdField(field) then Exactly(term) else Contains(term), At(r, RequestPath(field, nested)))
  }

  lemma ConditionMeans(field: string, term: string, nested: NestedMap, r: Record, m: Matcher)
    ensures SearchCondition(field, term, nested).Some? <==> Survives(field, term)
    ensures Survives(field, term) ==>
              (AllHold(SearchCondition(field, term, nested).value, r, m) <==> FieldMatches(field, term, nested, r, m))
  {
    if IsNested(field, nested) {
      NestMeans(Split(Target(field, nested)), Contains(term), r, m);
    } else {
      SplitPlain(field);
      assert At(r, [field]) == At(Member(r, field), [field][1..]) == Member(r, field);
    }
  }

  predicate SomeConditionHolds(conditions: seq<Fields>, r: Record, m: Matcher) {
    exists i :: 0 <= i < |conditions| && AllHold(conditions[i], r, m)
  }

  predicate SomeFieldMatches(fields: seq<string>, term: string, nested: NestedMap, r: Record, m: Matcher) {
    exists i :: 0 <= i < |fields| && Survives(fields[i], term) && FieldMatches(fields[i], term, nested, r, m)
  }

  predicate NoneSurvives(fields: seq<string>, term: string) {
    forall i :: 0 <= i < |fields| ==> !Survives(fields[i], term)
  }

  lemma {:induction false} ConditionsMean(fields: seq<string>, term: string, nested: NestedMap, r: Record, m: Matcher)
    ensures SearchConditions(fields, term, nested) == [] <==> NoneSurvives(fields, term)
    ensures SomeConditionHolds(SearchConditions(fields, term, nested), r, m)
        <==> SomeFieldMatches(fields, term, nested, r, m)
  {
    EmptySearch(term, nested, r, m);
    if fields != [] {
      hide FieldMatches, Survives, SearchCondition, SomeFieldMatches, NoneSurvives, SomeConditionHolds;
      var init, last := fields[..|fields| - 1], fields[|fields| - 1];
      ConditionsMean(init, term, nested, r, m);
      ConditionMeans(last, term, nested, r, m);
      var before := SearchConditions(init, term, nested);
      var all := SearchConditions(fields, term, nested);
      assert fields == init + [last];
      FieldsSplit(init, last, term, nested, r, m);
      if Survives(last, term) {
        var c := SearchCondition(last, term, nested).value;
        assert all == before + [c];
        ConditionsSplit(before, c, r, m);
      } else {
        assert all == before + [] == before;
      }
    }
  }

  lemma EmptySearch(term: string, nested: NestedMap, r: Record, m: Matcher)
    ensures NoneSurvives([], term) && !SomeFieldMatches([], term, nested, r, m) && !SomeConditionHolds([], r, m)
  {
  }

  lemma ConditionsSplit(before: seq<Fields>, c: Fields, r: Record, m: Matcher)
    ensures SomeConditionHolds(before + [c], r, m) <==> SomeConditionHolds(before, r, m) || AllHold(c, r, m)
  {
    var all := before + [c];
    assert all[|before|] == c;
    if SomeConditionHolds(before, r, m) {
      var i :| 0 <= i < |before| && AllHold(before[i], r, m);
      assert all[i] == before[i];
    }
  }

  lemma FieldsSplit(init: seq<string>, last: string, term: string, nested: NestedMap, r: Record, m: Matcher)
    ensures SomeFieldMatches(init + [last], term, nested, r, m) <==>
            SomeFieldMatches(init, term, nested, r, m)
                || (Survives(last, term) && FieldMatches(last, term, nested, r, m))
    ensures NoneSurvives(init + [last], term) <==> NoneSurvives(init, term) && !Survives(last, term)
  {
    hide FieldMatches, Survives;
    var fields := init + [last];
    assert fields[|init|] == last;
    assert forall i :: 0 <= i < |init| ==> fields[i] == init[i];
    if SomeFieldMatches(init, term, nested, r, m) {
      var i :| 0 <= i < |init| && Survives(init[i], term) && FieldMatches(init[i], term, nested, r, m);
      assert fields[i] == init[i];
    }
  }

  /** The search object holds of exactly the records that match in some surviving field; it demands
      nothing when the term is ignored or no field survives. */
  lemma SearchMeans(term: Option<string>, fields: seq<string>, nested: NestedMap, r: Record, m: Matcher)
    ensures AllHold(BuildSearchWhere(term, fields, nested), r, m) <==>
            ShouldIgnore(term) || NoneSurvives(fields, term.value) || SomeFieldMatches(fields, term.value, nested, r, m)
    ensures UniqueKeys(BuildSearchWhere(term, fields, nested))
  {
    hide SearchConditions, SomeFieldMatches, NoneSurvives, IsAll;
    EmptySearch(if term.Some? then term.value else "", nested, r, m);
    if !ShouldIgnore(term) && fields != [] {
      ConditionsMean(fields, term.value, nested, r, m);
      var conditions := SearchConditions(fields, term.value, nested);
      ConditionsUnique(fields, term.value, nested);
      if |conditions| > 1 {
        assert AllHold(BuildSearchWhere(term, fields, nested), r, m) <==> SomeConditionHolds(conditions, r, m);
      } else if |conditions| == 1 {
        assert SomeConditionHolds(conditions, r, m) <==> AllHold(conditions[0], r, m);
      } else {
        assert !SomeConditionHolds(conditions, r, m);
      }
    }
  }

  lemma {:induction false} ConditionsUnique(fields: seq<string>, term: string, nested: NestedMap)
    ensures forall i :: 0 <= i < |SearchConditions(fields, term, nested)| ==>
        UniqueKeys(SearchConditions(fields, term, nested)[i])
  {
    if fields != [] {
      ConditionsUnique(fields[..|fields| - 1], term, nested);
      var last := SearchCondition(fields[|fields| - 1], term, nested);
      assert last.Some? ==> UniqueKeys(last.value);
    }
  }

  // ---------------------------------------------------------------- filters

  /** Assigns along a path, creating the objects on the way. None: the path runs through a value that
      is already set and not falsy, where the assignment throws or extends an operator object. */
  function SetNested(fs: Fields, parts: seq<string>, value: Value): Option<Fields>
    requires parts != []
    decreases |parts|
  {
    if |parts| == 1 then Some(Put(fs, parts[0], Test(value)))
    else
      match Descend(Get(fs, parts[0]))
      case None => None
      case Some(inner) =>
        match SetNested(inner, parts[1..], value)
        case None => None
        case Some(inner') => Some(Put(fs, parts[0], Object(inner')))
  }

  function Descend(n: Option<Node>): Option<Fields> {
    match n
    case None => Some(Nil)
    case Some(Object(inner)) => Some(inner)
    case Some(Test(Falsy(_))) => Some(Nil)
    case Some(_) => None
  }

  /** One surviving filter entry: the path it is assigned to and its parsed value. */
  datatype Entry = Entry(path: seq<string>, value: Value)

  /** A filter from the request. `ignored` says whether its raw value is one of null, undefined, the
      empty text and "all"; `value` is its parsed form. */
  datatype Filter = Filter(key: string, ignored: bool, value: Value)

  function PathFor(key: string, nested: NestedMap): (path: seq<string>)
    ensures path != []
  {
    if IsNested(key, nested) then Split(Target(key, nested)) else [key]
  }

  function Survivors(filters: seq<Filter>, filterable: seq<string>, nested: NestedMap): (entries: seq<Entry>)
    ensures forall e :: e in entries ==> e.path != []
  {
    if filters == [] then []
    else
      var f := filters[|filters| - 1];
      Survivors(filters[..|filters| - 1], filterable, nested)
      + if f.ignored || f.key !in filterable then [] else [Entry(PathFor(f.key, nested), f.value)]
  }

  function SetAll(entries: seq<Entry>): Option<Fields>
    requires forall e :: e in entries ==> e.path != []
  {
    if entries == [] then Some(Nil)
    else
      match SetAll(entries[..|entries| - 1])
      case None => None
      case Some(fs) => SetNested(fs, entries[|entries| - 1].path, entries[|entries| - 1].value)
  }

  /** The object that `buildFilterWhere` builds. */
  function FilterWhere(filters: seq<Filter>, filterable: seq<string>, nested: NestedMap): Option<Fields> {
    SetAll(Survivors(filters, filterable, nested))
  }

  /** The path a filter or search field stands for: the mapped one, when there is one, split at its dots. */
  function RequestPath(key: string, nested: NestedMap): (path: seq<string>)
    ensures path != []
  {
    Split(if key in nested && nested[key] != "" then nested[key] else key)
  }

  /** No two filters that are sent and allowed have paths one of which continues the other. */
  predicate IncomparablePaths(filters: seq<Filter>, filterable: seq<string>, nested: NestedMap) {
    forall i, j :: 0 <= i < j < |filters|
                   && !filters[i].ignored && filters[i].key in filterable
                   && !filters[j].ignored && filters[j].key in filterable ==>
      NonPrefix(RequestPath(filters[i].key, nested), RequestPath(filters[j].key, nested))
  }

  /** The record passes every filter of the request that is neither ignored nor unknown. */
  predicate RequestPasses(filters: seq<Filter>, filterable: seq<string>, nested: NestedMap, r: Record, m: Matcher) {
    forall i :: 0 <= i < |filters| && !filters[i].ignored && filters[i].key in filterable ==>
      m(filters[i].value, At(r, RequestPath(filters[i].key, nested)))
  }

  /** The loop over the filters. On incomparable paths the object it builds holds of exactly the records
      that pass the request's filters. */
  method BuildFilterWhere(filters: seq<Filter>, filterable: seq<string>, nested: NestedMap) returns (r: Option<Fields>)
    ensures r == FilterWhere(filters, filterable, nested)
    ensures IncomparablePaths(filters, filterable, nested) ==>
              r.Some? && forall rec: Record, m: Matcher ::
                AllHold(r.value, rec, m) <==> RequestPasses(filters, filterable, nested, rec, m)
  {
    if IncomparablePaths(filters, filterable, nested) {
      forall rec: Record, m: Matcher
        ensures FilterWhere(filters, filterable, nested).Some?
        ensures AllHold(FilterWhere(filters, filterable, nested).value, rec, m)
           <==> RequestPasses(filters, filterable, nested, rec, m)
      {
        RequestMeans(filters, filterable, nested, rec, m);
      }
      RequestMeans(filters, filterable, nested, Scalar(""), (v, x) => true);
    }
    r := AssignFilters(filters, filterable, nested);
  }

  method AssignFilters(filters: seq<Filter>, filterable: seq<string>, nested: NestedMap) returns (r: Option<Fields>)
    ensures r == FilterWhere(filters, filterable, nested)
  {
    hide PathFor, SetNested, Descend;
    var fields := Nil;
    for i := 0 to |filters|
      invariant SetAll(Survivors(filters[..i], filterable, nested)) == Some(fields)
    {
      var f := filters[i];
      assert filters[..i + 1][..i] == filters[..i];
      var before := Survivors(filters[..i], filterable, nested);
      if f.ignored || f.key !in filterable {
        assert before + [] == before;
        continue;
      }
      var e := Entry(PathFor(f.key, nested), f.value);
      assert (before + [e])[..|before|] == before;
      var next := SetNested(fields, e.path, e.value);
      if next == None {
        SetAllStuck(filters, i + 1, filterable, nested);
        return None;
      }
      fields := next.value;
    }
    assert filters[..|filters|] == filters;
    r := Some(fields);
  }

  lemma {:induction false} SetAllStuck(filters: seq<Filter>, k: nat, filterable: seq<string>, nested: NestedMap)
    requires k <= |filters|
    requires SetAll(Survivors(filters[..k], filterable, nested)) == None
    ensures
      SetAll(Survivors(filters, filterable, nested)) == None
    decreases |filters| - k
  {
    if k == |filters| {
      assert filters[..k] == filters;
    } else {
      assert filters[..k + 1][..k] == filters[..k];
      var before, all := Survivors(filters[..k], filterable, nested), Survivors(filters[..k + 1], filterable, nested);
      if |all| > |before| {
        assert all[..|before|] == before;
      } else {
        assert all == before;
      }
      SetAllStuck(filters, k + 1, filterable, nested);
    }
  }

  predicate NonPrefix(a: seq<string>, b: seq<string>) {
    !(a <= b) && !(b <= a)
  }

  predicate Compatible(entries: seq<Entry>) {
    forall i, j :: 0 <= i < j < |entries| ==> NonPrefix(entries[i].path, entries[j].path)
  }

  /** Where a path leads in an object: to nothing, to an object or to a test. */
  predicate Free(fs: Fields, parts: seq<string>)
    requires parts != []
    decreases |parts|
  {
    match Get(fs, parts[0])
    case None => true
    case Some(Object(inner)) => |parts| > 1 && Free(inner, parts[1..])
    case Some(_) => false
  }

  predicate DeeplyUnique(fs: Fields) {
    match fs
    case Nil => true
    case Field(k, n, rest) => k !in Keys(rest) && (n.Object? ==> DeeplyUnique(n.fields)) && DeeplyUnique(rest)
  }

  lemma {:induction false} DeeplyUniqueIsUnique(fs: Fields)
    requires DeeplyUnique(fs)
    ensures UniqueKeys(fs)
  {
    if fs.Field? {
      DeeplyUniqueIsUnique(fs.rest);
    }
  }

  lemma {:induction false} GetDeeplyUnique(fs: Fields, key: string)
    requires DeeplyUnique(fs) && Get(fs, key).Some? && Get(fs, key).value.Object?
    ensures DeeplyUnique(Get(fs, key).value.fields)
  {
    if fs.key != key {
      GetDeeplyUnique(fs.rest, key);
    }
  }

  lemma {:induction false} PutDeeplyUnique(fs: Fields, key: string, node: Node)
    requires DeeplyUnique(fs) && (node.Object? ==> DeeplyUnique(node.fields))
    ensures DeeplyUnique(Put(fs, key, node))
  {
    if fs.Field? && fs.key != key {
      PutDeeplyUnique(fs.rest, key, node);
    }
  }

  lemma {:induction false} GetPut(fs: Fields, key: string, node: Node, other: string)
    ensures Get(Put(fs, key, node), other) == if other == key then Some(node) else Get(fs, other)
  {
    if fs.Field? && fs.key != key {
      GetPut(fs.rest, key, node, other);
    }
  }

  lemma {:induction false} SplitOffKey(fs: Fields, key: string, r: Record, m: Matcher)
    requires UniqueKeys(fs)
    ensures AllHold(fs, r, m) <==>
            AllHold(Drop(fs, {key}), r, m) && (key in Keys(fs) ==> Holds(Get(fs, key).value, key, r, m))
  {
    if fs.Field? {
      if fs.key == key {
        DropNothing(fs.rest, {key});
      } else {
        SplitOffKey(fs.rest, key, r, m);
      }
    }
  }

  /** Assigning along a free path adds exactly the test at that path to what the object demands. */
  lemma {:induction false} SetNestedMeans(fs: Fields, parts: seq<string>, value: Value, r: Record, m: Matcher)
    requires parts != [] && DeeplyUnique(fs) && Free(fs, parts)
    ensures
      var g := SetNested(fs, parts, value);
      g.Some? && DeeplyUnique(g.value) &&
      (AllHold(g.value, r, m) <==> AllHold(fs, r, m) && m(value, At(r, parts)))
    decreases |parts|
  {
    var key := parts[0];
    DeeplyUniqueIsUnique(fs);
    SplitOffKey(fs, key, r, m);
    if |parts| == 1 {
      assert parts[1..] == [];
      assert At(Member(r, key), []) == Member(r, key);
      PutMeans(fs, key, Test(value), r, m);
      PutDeeplyUnique(fs, key, Test(value));
    } else {
      var inner := Descend(Get(fs, key)).value;
      if Get(fs, key).Some? {
        GetDeeplyUnique(fs, key);
      }
      FreeInside(inner, parts[1..], Get(fs, key) == None);
      SetNestedMeans(inner, parts[1..], value, Member(r, key), m);
      var inner' := SetNested(inner, parts[1..], value).value;
      PutMeans(fs, key, Object(inner'), r, m);
      PutDeeplyUnique(fs, key, Object(inner'));
    }
  }

  lemma FreeInside(fs: Fields, parts: seq<string>, empty: bool)
    requires parts != []
    requires empty ==> fs == Nil
    requires !empty ==> Free(fs, parts)
    ensures Free(fs, parts)
  {
  }

  lemma DifferentHead(a: seq<string>, b: seq<string>)
    requires a != [] && b != [] && NonPrefix(a, b)
    ensures |a| == 1 ==> a[0] != b[0]
  {
    assert |a| == 1 ==> a == [a[0]];
    assert b[..1] == [b[0]];
  }

  /** Assigning along one path leaves every path that is not a prefix of it, nor it of them, as free as it was. */
  lemma {:induction false} SetNestedKeepsFree(fs: Fields, parts: seq<string>, value: Value, other: seq<string>)
    requires parts != [] && other != [] && NonPrefix(parts, other)
    requires Free(fs, parts) && Free(fs, other) && SetNested(fs, parts, value).Some?
    ensures Free(SetNested(fs, parts, value).value, other)
    decreases |parts|
  {
    var key := parts[0];
    if |parts| == 1 {
      DifferentHead(parts, other);
      GetPut(fs, key, Test(value), other[0]);
    } else {
      var inner := Descend(Get(fs, key)).value;
      var inner' := SetNested(inner, parts[1..], value).value;
      GetPut(fs, key, Object(inner'), other[0]);
      if other[0] == key {
        DifferentHead(other, parts);
        assert parts == [key] + parts[1..] && other == [key] + other[1..];
        FreeInside(inner, parts[1..], Get(fs, key) == None);
        FreeInside(inner, other[1..], Get(fs, key) == None);
        SetNestedKeepsFree(inner, parts[1..], value, other[1..]);
      }
    }
  }

  predicate ClearOf(entries: seq<Entry>, path: seq<string>) {
    forall i :: 0 <= i < |entries| ==> NonPrefix(entries[i].path, path)
  }

  predicate AllPass(entries: seq<Entry>, r: Record, m: Matcher) {
    forall i :: 0 <= i < |entries| ==> m(entries[i].value, At(r, entries[i].path))
  }

  lemma CompatibleInit(entries: seq<Entry>)
    requires entries != [] && Compatible(entries)
    ensures
      var init, last := entries[..|entries| - 1], entries[|entries| - 1];
      Compatible(init) && ClearOf(init, last.path)
  {
  }

  lemma InitParts(entries: seq<Entry>, path: seq<string>, r: Record, m: Matcher)
    requires entries != []
    ensures
      var init, last := entries[..|entries| - 1], entries[|entries| - 1];
      && (ClearOf(entries, path) ==> ClearOf(init, path) && NonPrefix(last.path, path))
      && (AllPass(entries, r, m) <==> AllPass(init, r, m) && m(last.value, At(r, last.path)))
  {
    var init := entries[..|entries| - 1];
    assert forall i :: 0 <= i < |init| ==> init[i] == entries[i];
    if AllPass(entries, r, m) {
      forall i | 0 <= i < |init|
        ensures m(init[i].value, At(r, init[i].path))
      {
        assert m(entries[i].value, At(r, entries[i].path));
      }
    }
  }

  /** Filters on pairwise incomparable paths build an object, and leave every other such path free. */
  lemma {:induction false} FiltersBuild(entries: seq<Entry>, path: seq<string>)
    requires path != [] && (forall e :: e in entries ==> e.path != [])
    requires Compatible(entries) && ClearOf(entries, path)
    ensures
      var g := SetAll(entries);
      g.Some? && DeeplyUnique(g.value) && Free(g.value, path)
  {
    if entries != [] {
      hide SetNested, NonPrefix;
      var init, last := entries[..|entries| - 1], entries[|entries| - 1];
      CompatibleInit(entries);
      InitParts(entries, path, Scalar(""), (v, x) => true);
      FiltersBuild(init, last.path);
      FiltersBuild(init, path);
      var fs := SetAll(init).value;
      SetNestedMeans(fs, last.path, last.value, Scalar(""), (v, x) => true);
      SetNestedKeepsFree(fs, last.path, last.value, path);
    }
  }

  /** Filters on paths none of which is a prefix of another never disturb each other: the object they
      build demands exactly each filter's test at its own path. */
  lemma {:induction false} FiltersMean(entries: seq<Entry>, r: Record, m: Matcher)
    requires forall e :: e in entries ==> e.path != []
    requires Compatible(entries)
    ensures
      var g := SetAll(entries);
      g.Some? && DeeplyUnique(g.value) && (AllHold(g.value, r, m) <==> AllPass(entries, r, m))
  {
    if entries != [] {
      hide SetNested, NonPrefix, AllPass;
      var init, last := entries[..|entries| - 1], entries[|entries| - 1];
      CompatibleInit(entries);
      InitParts(entries, last.path, r, m);
      FiltersMean(init, r, m);
      FiltersBuild(init, last.path);
      SetNestedMeans(SetAll(init).value, last.path, last.value, r, m);
    }
  }

  /** Splitting a path without dots gives the path itself. */
  lemma {:induction false} SplitPlain(path: string)
    requires '.' !in path
    ensures Split(path) == [path]
  {
    if path != "" {
      assert path == [path[0]] + path[1..];
      SplitPlain(path[1..]);
      assert [path[0]] + path[1..] == path;
    }
  }

  function Join(parts: seq<string>): string {
    if parts == [] then "" else if |parts| == 1 then parts[0] else parts[0] + "." + Join(parts[1..])
  }

  lemma JoinAfterDot(rest: seq<string>)
    requires rest != []
    ensures Join([""] + rest) == "." + Join(rest)
  {
    assert ([""] + rest)[1..] == rest;
  }

  lemma JoinLonger(c: char, rest: seq<string>)
    requires rest != []
    ensures Join([[c] + rest[0]] + rest[1..]) == [c] + Join(rest)
  {
    var parts := [[c] + rest[0]] + rest[1..];
    assert parts[1..] == rest[1..];
    if |rest| > 1 {
      var tail := "." + Join(rest[1..]);
      assert Join(rest) == rest[0] + tail;
      assert Join(parts) == ([c] + rest[0]) + tail;
      assert [c] + (rest[0] + tail) == ([c] + rest[0]) + tail;
    }
  }

  /** The parts of a path have no dots, and joined by dots they are the path. */
  lemma {:induction false} SplitJoins(path: string)
    ensures Join(Split(path)) == path
    ensures forall i :: 0 <= i < |Split(path)| ==> '.' !in Split(path)[i]
  {
    if path != "" {
      hide Join;
      var rest := Split(path[1..]);
      SplitJoins(path[1..]);
      assert path == [path[0]] + path[1..];
      if path[0] == '.' {
        JoinAfterDot(rest);
      } else {
        JoinLonger(path[0], rest);
      }
    }
  }

  lemma PathForIs(key: string, nested: NestedMap)
    ensures PathFor(key, nested) == RequestPath(key, nested)
  {
    if !IsNested(key, nested) {
      SplitPlain(key);
    }
  }

  lemma {:induction false} SurvivorsPass(
    filters: seq<Filter>, filterable: seq<string>, nested: NestedMap, r: Record, m: Matcher)
    ensures AllPass(Survivors(filters, filterable, nested), r, m) <==> RequestPasses(filters, filterable, nested, r, m)
  {
    if filters != [] {
      hide PathFor, RequestPath;
      var init, last := filters[..|filters| - 1], filters[|filters| - 1];
      SurvivorsPass(init, filterable, nested, r, m);
      PathForIs(last.key, nested);
      RequestPassesLast(init, last, filterable, nested, r, m);
      assert filters == init + [last];
      var before, all := Survivors(init, filterable, nested), Survivors(filters, filterable, nested);
      if last.ignored || last.key !in filterable {
        assert all == before + [] == before;
      } else {
        assert all[..|all| - 1] == before;
        InitParts(all, RequestPath(last.key, nested), r, m);
      }
    }
  }

  lemma RequestPassesLast(
    init: seq<Filter>, last: Filter, filterable: seq<string>, nested: NestedMap, r: Record, m: Matcher)
    ensures RequestPasses(init + [last], filterable, nested, r, m) <==>
            && RequestPasses(init, filterable, nested, r, m)
            && (!last.ignored && last.key in filterable ==> m(last.value, At(r, RequestPath(last.key, nested))))
  {
    hide RequestPath;
    var all := init + [last];
    assert all[|init|] == last;
    assert forall i :: 0 <= i < |init| ==> all[i] == init[i];
    if RequestPasses(all, filterable, nested, r, m) {
      forall i | 0 <= i < |init| && !init[i].ignored && init[i].key in filterable
        ensures m(init[i].value, At(r, RequestPath(init[i].key, nested)))
      {
        assert all[i] == init[i];
      }
    }
  }

  /** Every survivor is the entry of a filter that is sent and allowed. */
  lemma {:induction false} SurvivorOrigin(filters: seq<Filter>, filterable: seq<string>, nested: NestedMap, e: Entry)
    requires e in Survivors(filters, filterable, nested)
    ensures exists i :: 0 <= i < |filters| && !filters[i].ignored && filters[i].key in filterable
                        && e == Entry(RequestPath(filters[i].key, nested), filters[i].value)
  {
    hide PathFor, RequestPath;
    var init, last := filters[..|filters| - 1], filters[|filters| - 1];
    PathForIs(last.key, nested);
    if e in Survivors(init, filterable, nested) {
      SurvivorOrigin(init, filterable, nested, e);
      var i :| 0 <= i < |init| && !init[i].ignored && init[i].key in filterable
               && e == Entry(RequestPath(init[i].key, nested), init[i].value);
      assert filters[i] == init[i];
    } else {
      assert filters[|init|] == last;
    }
  }

  lemma {:induction false} SurvivorsCompatible(filters: seq<Filter>, filterable: seq<string>, nested: NestedMap)
    requires IncomparablePaths(filters, filterable, nested)
    ensures Compatible(Survivors(filters, filterable, nested))
  {
    if filters != [] {
      hide PathFor, RequestPath, NonPrefix;
      var init, last := filters[..|filters| - 1], filters[|filters| - 1];
      SurvivorsCompatible(init, filterable, nested);
      PathForIs(last.key, nested);
      var before := Survivors(init, filterable, nested);
      if !last.ignored && last.key in filterable {
        forall k | 0 <= k < |before|
          ensures NonPrefix(before[k].path, RequestPath(last.key, nested))
        {
          SurvivorOrigin(init, filterable, nested, before[k]);
          var i :| 0 <= i < |init| && !init[i].ignored && init[i].key in filterable
                   && before[k] == Entry(RequestPath(init[i].key, nested), init[i].value);
          assert filters[i] == init[i] && filters[|init|] == last;
        }
      } else {
        assert before + [] == before;
      }
    }
  }

  /** What the filters of a request demand, said of the request itself. */
  lemma RequestMeans(filters: seq<Filter>, filterable: seq<string>, nested: NestedMap, r: Record, m: Matcher)
    requires IncomparablePaths(filters, filterable, nested)
    ensures
      var filter := FilterWhere(filters, filterable, nested);
      filter.Some? && DeeplyUnique(filter.value)
      && (AllHold(filter.value, r, m) <==> RequestPasses(filters, filterable, nested, r, m))
  {
    SurvivorsCompatible(filters, filterable, nested);
    SurvivorsPass(filters, filterable, nested, r, m);
    FiltersMean(Survivors(filters, filterable, nested), r, m);
  }

  // ---------------------------------------------------------------- the whole query

  /** The `where` of the query: `{...baseWhere, ...filterWhere, ...searchWhere}`. */
  function BuildWhere(base: Fields, filter: Fields, search: Fields): Fields {
    Spread(Spread(base, filter), search)
  }

  /** What the merged object means in general: a later part overwrites the keys it shares with an earlier one. */
  lemma WhereMeansExactly(base: Fields, filter: Fields, search: Fields, r: Record, m: Matcher)
    requires UniqueKeys(base) && UniqueKeys(filter) && UniqueKeys(search)
    ensures AllHold(BuildWhere(base, filter, search), r, m) <==>
            && AllHold(Drop(base, Keys(filter) + Keys(search)), r, m)
            && AllHold(Drop(filter, Keys(search)), r, m)
            && AllHold(search, r, m)
  {
    hide AllHold, Drop, Spread, UniqueKeys, Keys;
    SpreadMeans(base, filter, r, m);
    SpreadMeans(Spread(base, filter), search, r, m);
    DropSpread(base, filter, Keys(search));
    DropUnique(base, Keys(search));
    DropUnique(filter, Keys(search));
    SpreadMeans(Drop(base, Keys(search)), Drop(filter, Keys(search)), r, m);
    DropTwice(base, Keys(search), Keys(filter) - Keys(search));
    assert Keys(search) + (Keys(filter) - Keys(search)) == Keys(filter) + Keys(search);
  }

  lemma {:induction false} DropSpread(a: Fields, b: Fields, keys: set<string>)
    ensures Drop(Spread(a, b), keys) == Spread(Drop(a, keys), Drop(b, keys))
    decreases b
  {
    if b.Field? {
      DropSpread(Put(a, b.key, b.node), b.rest, keys);
      if b.key in keys {
        DropPutDropped(a, b.key, b.node, keys);
      } else {
        DropPut(a, b.key, b.node, keys);
      }
    }
  }

  lemma {:induction false} DropPutDropped(fs: Fields, key: string, node: Node, keys: set<string>)
    requires key in keys
    ensures Drop(Put(fs, key, node), keys) == Drop(fs, keys)
  {
    if fs.Field? && fs.key != key {
      DropPutDropped(fs.rest, key, node, keys);
    }
  }

  /** With keys that do not overlap, the built `where` holds of exactly the records that the base
      condition admits, that pass every surviving filter, and that match the search. */
  lemma QueryMeans(
    base: Fields, filters: seq<Filter>, filterable: seq<string>, term: Option<string>, searchFields: seq<string>,
    nested: NestedMap, r: Record, m: Matcher)
    requires UniqueKeys(base)
    requires IncomparablePaths(filters, filterable, nested)
    requires
      var filter := FilterWhere(filters, filterable, nested);
      var search := BuildSearchWhere(term, searchFields, nested);
      filter.Some? ==>
        && Keys(base) !! Keys(filter.value)
        && Keys(base) !! Keys(search)
        && Keys(filter.value) !! Keys(search)
    ensures
      var filter := FilterWhere(filters, filterable, nested);
      var search := BuildSearchWhere(term, searchFields, nested);
      filter.Some? &&
      (AllHold(BuildWhere(base, filter.value, search), r, m) <==>
         && AllHold(base, r, m)
         && RequestPasses(filters, filterable, nested, r, m)
         && (ShouldIgnore(term) || NoneSurvives(searchFields, term.value)
             || SomeFieldMatches(searchFields, term.value, nested, r, m)))
  {
    RequestMeans(filters, filterable, nested, r, m);
    var filter := FilterWhere(filters, filterable, nested).value;
    DeeplyUniqueIsUnique(filter);
    var search := BuildSearchWhere(term, searchFields, nested);
    SearchMeans(term, searchFields, nested, r, m);
    WhereMeansExactly(base, filter, search, r, m);
    DropNothing(base, Keys(filter) + Keys(search));
    DropNothing(filter, Keys(search));
  }

  // ---------------------------------------------------------------- when the base condition survives

  function Heads(entries: seq<Entry>): set<string>
    requires forall e :: e in entries ==> e.path != []
  {
    set e | e in entries :: e.path[0]
  }

  /** The keys that the search conditions of these fields begin with. */
  function SearchHeads(fields: seq<string>, nested: NestedMap): set<string> {
    set f | f in fields :: PathFor(f, nested)[0]
  }

  lemma SetNestedKeys(fs: Fields, parts: seq<string>, value: Value)
    requires parts != [] && SetNested(fs, parts, value).Some?
    ensures Keys(SetNested(fs, parts, value).value) == Keys(fs) + {parts[0]}
  {
  }

  lemma {:induction false} FilterKeys(entries: seq<Entry>)
    requires forall e :: e in entries ==> e.path != []
    requires SetAll(entries).Some?
    ensures Keys(SetAll(entries).value) == Heads(entries)
  {
    if entries != [] {
      var init, last := entries[..|entries| - 1], entries[|entries| - 1];
      FilterKeys(init);
      SetNestedKeys(SetAll(init).value, last.path, last.value);
      assert entries == init + [last];
    }
  }

  /** How many search fields take part. */
  function SurvivingCount(fields: seq<string>, term: string): nat {
    if fields == [] then 0
    else SurvivingCount(fields[..|fields| - 1], term) + if Survives(fields[|fields| - 1], term) then 1 else 0
  }

  lemma {:induction false} ConditionKeys(fields: seq<string>, term: string, nested: NestedMap)
    ensures
      var conditions := SearchConditions(fields, term, nested);
      && |conditions| == SurvivingCount(fields, term)
      && forall c :: c in conditions ==> Keys(c) <= SearchHeads(fields, nested)
  {
    if fields != [] {
      var init, last := fields[..|fields| - 1], fields[|fields| - 1];
      ConditionKeys(init, term, nested);
      assert fields == init + [last];
      assert PathFor(last, nested)[0] in SearchHeads(fields, nested);
      assert SearchHeads(init, nested) <= SearchHeads(fields, nested);
    }
  }

  /** The search object has the single key "OR" exactly when it searches more than one field. */
  lemma SearchKeys(term: Option<string>, fields: seq<string>, nested: NestedMap)
    requires "OR" !in SearchHeads(fields, nested)
    ensures
      var search := BuildSearchWhere(term, fields, nested);
      && Keys(search) <= {"OR"} + SearchHeads(fields, nested)
      && ("OR" in Keys(search) <==> !ShouldIgnore(term) && SurvivingCount(fields, term.value) > 1)
      && ("OR" in Keys(search) ==> Keys(search) == {"OR"})
  {
    if !ShouldIgnore(term) {
      ConditionKeys(fields, term.value, nested);
      var conditions := SearchConditions(fields, term.value, nested);
      assert |conditions| == 1 ==> conditions[0] in conditions;
    }
  }

  /** The built `where` of a query. */
  function QueryWhere(
    base: Fields, entries: seq<Entry>, term: Option<string>, fields: seq<string>, nested: NestedMap): Fields
    requires forall e :: e in entries ==> e.path != []
    requires SetAll(entries).Some?
  {
    BuildWhere(base, SetAll(entries).value, BuildSearchWhere(term, fields, nested))
  }

  /** Every record that the built `where` admits satisfies the base condition. */
  ghost predicate Keeps(base: Fields, where: Fields) {
    forall r: Record, m: Matcher :: AllHold(where, r, m) ==> AllHold(base, r, m)
  }

  /** A base on keys that neither filters nor search fields begin with, and not on "OR", is always kept. */
  lemma KeyedBaseKept(base: Fields, entries: seq<Entry>, term: Option<string>, fields: seq<string>, nested: NestedMap)
    requires UniqueKeys(base) && (forall e :: e in entries ==> e.path != []) && Compatible(entries)
    requires Keys(base) !! {"OR"} + Heads(entries) + SearchHeads(fields, nested)
    requires "OR" !in SearchHeads(fields, nested)
    ensures SetAll(entries).Some? && Keeps(base, QueryWhere(base, entries, term, fields, nested))
  {
    hide AllHold, Drop, SetAll, BuildSearchWhere, Spread;
    FiltersMean(entries, Scalar(""), (v, x) => true);
    FilterKeys(entries);
    SearchKeys(term, fields, nested);
    forall r: Record, m: Matcher | AllHold(QueryWhere(base, entries, term, fields, nested), r, m)
      ensures AllHold(base, r, m)
    {
      WhereParts(base, entries, term, fields, nested, r, m);
      var search := BuildSearchWhere(term, fields, nested);
      DropNothing(base, Keys(SetAll(entries).value) + Keys(search));
    }
  }

  lemma WhereParts(
    base: Fields, entries: seq<Entry>, term: Option<string>, fields: seq<string>, nested: NestedMap,
    r: Record, m: Matcher)
    requires UniqueKeys(base) && (forall e :: e in entries ==> e.path != []) && Compatible(entries)
    requires SetAll(entries).Some?
    ensures
      var filter, search := SetAll(entries).value, BuildSearchWhere(term, fields, nested);
      AllHold(QueryWhere(base, entries, term, fields, nested), r, m) <==>
      && AllHold(Drop(base, Keys(filter) + Keys(search)), r, m)
      && AllHold(Drop(filter, Keys(search)), r, m)
      && AllHold(search, r, m)
  {
    hide AllHold, Drop, SetAll, BuildSearchWhere, Spread;
    FiltersMean(entries, r, m);
    var filter := SetAll(entries).value;
    DeeplyUniqueIsUnique(filter);
    SearchMeans(term, fields, nested, r, m);
    WhereMeansExactly(base, filter, BuildSearchWhere(term, fields, nested), r, m);
  }

  /** An access scope: one of several groups of tests must hold. */
  function ScopeBase(scope: seq<Fields>): Fields {
    Field("OR", AnyOf(scope), Nil)
  }

  /** Tests on direct fields whose values only the database interprets. */
  predicate OpaqueTests(fs: Fields) {
    match fs
    case Nil => true
    case Field(_, node, rest) => node.Test? && node.value.Opaque? && OpaqueTests(rest)
  }

  /** The filters themselves demand every test of the group. */
  predicate Demanded(fs: Fields, entries: seq<Entry>) {
    match fs
    case Nil => true
    case Field(key, node, rest) => node.Test? && Entry([key], node.value) in entries && Demanded(rest, entries)
  }

  lemma {:induction false} DemandedHolds(fs: Fields, entries: seq<Entry>, r: Record, m: Matcher)
    requires Demanded(fs, entries) && AllPass(entries, r, m)
    ensures AllHold(fs, r, m)
  {
    if fs.Field? {
      DemandedHolds(fs.rest, entries, r, m);
      var i :| 0 <= i < |entries| && entries[i] == Entry([fs.key], fs.node.value);
      assert m(entries[i].value, At(r, entries[i].path));
      assert At(r, [fs.key]) == At(Member(r, fs.key), [fs.key][1..]) == Member(r, fs.key);
    }
  }

  // The record and the matcher that separate a query from its scope: each field of the record carries
  // its own name, and the matcher fails exactly the tests on a named field that no filter demands.

  const NAME := "name of the field"

  function Named(key: string): Record {
    Entity(map[NAME := Scalar(key)])
  }

  function NamedRecord(keys: set<string>): Record {
    Entity(map k | k in keys :: Named(k))
  }

  function Separating(entries: seq<Entry>): Matcher {
    (v: Value, x: Record) =>
      v.Opaque? && x.Entity? && NAME in x.members && x.members[NAME].Scalar? ==>
      Entry([x.members[NAME].content], v) in entries
  }

  lemma {:induction false} ScopeGroupFails(fs: Fields, entries: seq<Entry>, keys: set<string>)
    requires OpaqueTests(fs) && !Demanded(fs, entries) && Keys(fs) <= keys
    ensures !AllHold(fs, NamedRecord(keys), Separating(entries))
  {
    if Entry([fs.key], fs.node.value) in entries {
      ScopeGroupFails(fs.rest, entries, keys);
    } else {
      assert Member(NamedRecord(keys), fs.key) == Named(fs.key);
    }
  }

  lemma {:induction false} ScalarPath(content: string, parts: seq<string>)
    ensures At(Scalar(content), parts).Scalar?
    decreases |parts|
  {
    if parts != [] {
      ScalarPath("", parts[1..]);
    }
  }

  /** At the end of a path the record has its named field, when the path is one of its fields, or a scalar. */
  lemma PathInNamedRecord(keys: set<string>, path: seq<string>)
    requires path != []
    ensures
      var x := At(NamedRecord(keys), path);
      if |path| == 1 && path[0] in keys then x == Named(path[0]) else x.Scalar?
  {
    var x := Member(NamedRecord(keys), path[0]);
    assert At(NamedRecord(keys), path) == At(x, path[1..]);
    if |path| == 1 {
      assert path[1..] == [];
    } else {
      var y := Member(x, path[1]);
      assert At(x, path[1..]) == At(y, path[1..][1..]);
      ScalarPath(y.content, path[1..][1..]);
    }
  }

  lemma FiltersPassNamed(entries: seq<Entry>, keys: set<string>)
    requires forall e :: e in entries ==> e.path != []
    ensures AllPass(entries, NamedRecord(keys), Separating(entries))
  {
    forall i | 0 <= i < |entries|
      ensures Separating(entries)(entries[i].value, At(NamedRecord(keys), entries[i].path))
    {
      var e := entries[i];
      PathInNamedRecord(keys, e.path);
      assert |e.path| == 1 ==> e.path == [e.path[0]] && e == Entry([e.path[0]], e.value);
    }
  }

  lemma ScopeFails(scope: seq<Fields>, entries: seq<Entry>, keys: set<string>)
    requires forall i :: 0 <= i < |scope| ==>
        OpaqueTests(scope[i]) && !Demanded(scope[i], entries) && Keys(scope[i]) <= keys
    ensures !AllHold(ScopeBase(scope), NamedRecord(keys), Separating(entries))
  {
    forall i | 0 <= i < |scope|
      ensures !AllHold(scope[i], NamedRecord(keys), Separating(entries))
    {
      ScopeGroupFails(scope[i], entries, keys);
    }
  }

  lemma {:induction false} ScopeKeys(scope: seq<Fields>) returns (keys: set<string>)
    ensures forall i :: 0 <= i < |scope| ==> Keys(scope[i]) <= keys
  {
    keys := {};
    if scope != [] {
      var init := scope[..|scope| - 1];
      keys := ScopeKeys(init);
      assert forall i :: 0 <= i < |init| ==> init[i] == scope[i];
      keys := keys + Keys(scope[|scope| - 1]);
    }
  }

  lemma SearchPassesNamed(
    term: Option<string>, fields: seq<string>, nested: NestedMap, entries: seq<Entry>, keys: set<string>)
    ensures AllHold(BuildSearchWhere(term, fields, nested), NamedRecord(keys), Separating(entries))
  {
    var r, m := NamedRecord(keys), Separating(entries);
    SearchMeans(term, fields, nested, r, m);
    if !ShouldIgnore(term) && !NoneSurvives(fields, term.value) {
      var i :| 0 <= i < |fields| && Survives(fields[i], term.value);
      assert FieldMatches(fields[i], term.value, nested, r, m);
    }
  }

  /** An access scope in "OR" form is kept exactly when the search is ignored or leaves at most one
      field, or when the filters demand one of the scope's groups by themselves: a search over several
      fields is an "OR" too, and replaces the scope. */
  lemma ScopeKeptExactly(
    scope: seq<Fields>, entries: seq<Entry>, term: Option<string>, fields: seq<string>, nested: NestedMap)
    requires (forall e :: e in entries ==> e.path != []) && Compatible(entries) && "OR" !in Heads(entries)
    requires "OR" !in SearchHeads(fields, nested)
    requires forall i :: 0 <= i < |scope| ==> OpaqueTests(scope[i])
    ensures
      SetAll(entries).Some? &&
      (Keeps(ScopeBase(scope), QueryWhere(ScopeBase(scope), entries, term, fields, nested)) <==>
       ShouldIgnore(term) || SurvivingCount(fields, term.value) <= 1
       || exists i :: 0 <= i < |scope| && Demanded(scope[i], entries))
  {
    hide AllHold, Drop, SetAll, BuildSearchWhere, Spread, QueryWhere, Demanded, AllPass;
    var base := ScopeBase(scope);
    FiltersMean(entries, Scalar(""), (v, x) => true);
    SearchKeys(term, fields, nested);
    if ShouldIgnore(term) || SurvivingCount(fields, term.value) <= 1 {
      forall r: Record, m: Matcher | AllHold(QueryWhere(base, entries, term, fields, nested), r, m)
        ensures AllHold(base, r, m)
      {
        ScopedWhere(scope, entries, term, fields, nested, r, m);
      }
    } else if exists i :: 0 <= i < |scope| && Demanded(scope[i], entries) {
      var i :| 0 <= i < |scope| && Demanded(scope[i], entries);
      forall r: Record, m: Matcher | AllHold(QueryWhere(base, entries, term, fields, nested), r, m)
        ensures AllHold(base, r, m)
      {
        ScopedWhere(scope, entries, term, fields, nested, r, m);
        DemandedHolds(scope[i], entries, r, m);
        GroupSuffices(scope, i, r, m);
      }
    } else {
      var keys := ScopeKeys(scope);
      var r, m := NamedRecord(keys), Separating(entries);
      ScopedWhere(scope, entries, term, fields, nested, r, m);
      FiltersPassNamed(entries, keys);
      SearchPassesNamed(term, fields, nested, entries, keys);
      ScopeFails(scope, entries, keys);
    }
  }

  lemma GroupSuffices(scope: seq<Fields>, i: nat, r: Record, m: Matcher)
    requires i < |scope| && AllHold(scope[i], r, m)
    ensures AllHold(ScopeBase(scope), r, m)
  {
  }

  /** A scoped query over several search fields means its filters and its search; any other one means
      at least the scope. */
  lemma ScopedWhere(
    scope: seq<Fields>, entries: seq<Entry>, term: Option<string>, fields: seq<string>, nested: NestedMap,
    r: Record, m: Matcher)
    requires (forall e :: e in entries ==> e.path != []) && Compatible(entries) && "OR" !in Heads(entries)
    requires "OR" !in SearchHeads(fields, nested) && SetAll(entries).Some?
    ensures
      var holds := AllHold(QueryWhere(ScopeBase(scope), entries, term, fields, nested), r, m);
      if ShouldIgnore(term) || SurvivingCount(fields, term.value) <= 1 then holds ==> AllHold(ScopeBase(scope), r, m)
      else holds <==> AllPass(entries, r, m) && AllHold(BuildSearchWhere(term, fields, nested), r, m)
  {
    hide AllHold, SetAll, BuildSearchWhere, Spread, QueryWhere, AllPass;
    var filter, search := SetAll(entries).value, BuildSearchWhere(term, fields, nested);
    WhereParts(ScopeBase(scope), entries, term, fields, nested, r, m);
    FiltersMean(entries, r, m);
    FilterKeys(entries);
    SearchKeys(term, fields, nested);
    if ShouldIgnore(term) || SurvivingCount(fields, term.value) <= 1 {
      DropNothing(ScopeBase(scope), Keys(filter) + Keys(search));
    } else {
      DropNothing(filter, Keys(search));
      NothingDemanded(r, m);
    }
  }

  lemma NothingDemanded(r: Record, m: Matcher)
    ensures AllHold(Nil, r, m)
  {
  }

  // ---------------------------------------------------------------- the file listing

  const FILE_SEARCH: seq<string> := ["name", "url", "description"]
  const FILE_FILTERS: seq<string> := ["portfolio_id", "is_active", "uploaded_by"]
  const FILE_NESTED: NestedMap :=
    map["portfolio_name" := "portfolio.name", "uploaded_by_name" := "uploadedBy.first_name"]

  /** Filters come from an object, so their keys are distinct. */
  predicate DistinctFilters(filters: seq<Filter>) {
    forall i, j :: 0 <= i < j < |filters| ==> filters[i].key != filters[j].key
  }

  predicate PlainFields(fields: seq<string>, nested: NestedMap) {
    forall f :: f in fields ==> !IsNested(f, nested)
  }

  /** Filters on direct fields are assigned to incomparable paths of one part. */
  lemma {:induction false} DirectSurvivors(filters: seq<Filter>, filterable: seq<string>, nested: NestedMap)
    requires DistinctFilters(filters) && PlainFields(filterable, nested)
    ensures
      var entries := Survivors(filters, filterable, nested);
      && Compatible(entries)
      && forall e :: e in entries ==>
           |e.path| == 1 && e.path[0] in filterable && exists f :: f in filters && e.path[0] == f.key
  {
    if filters != [] {
      var init, last := filters[..|filters| - 1], filters[|filters| - 1];
      DirectSurvivors(init, filterable, nested);
      var before, all := Survivors(init, filterable, nested), Survivors(filters, filterable, nested);
      assert filters == init + [last];
      if all != before + [] {
        assert all == before + [Entry([last.key], last.value)];
        forall i | 0 <= i < |before|
          ensures NonPrefix(before[i].path, [last.key])
        {
          var e := before[i];
          assert e in before;
          var f :| f in init && e.path[0] == f.key;
          assert e.path == [f.key];
        }
      }
    }
  }

  lemma NoIdField(field: string, term: string)
    requires field != "" && field[|field| - 1] != 'd'
    ensures Survives(field, term)
  {
  }

  lemma FileFieldsDirect()
    ensures PlainFields(FILE_SEARCH, FILE_NESTED) && PlainFields(FILE_FILTERS, FILE_NESTED)
    ensures "OR" !in FILE_FILTERS && "OR" !in FILE_SEARCH
  {
    hide PathFor, IsIdField;
    assert |"portfolio_name"| == 14 && |"uploaded_by_name"| == 16;
    assert |"name"| == 4 && |"url"| == 3 && |"description"| == 11;
    assert |"portfolio_id"| == 12 && |"is_active"| == 9 && |"uploaded_by"| == 11 && |"OR"| == 2;
  }

  lemma DirectHeads(fields: seq<string>, nested: NestedMap)
    requires PlainFields(fields, nested)
    ensures forall f :: f in SearchHeads(fields, nested) ==> f in fields
  {
  }

  lemma CountThree(a: string, b: string, c: string, term: string)
    requires Survives(a, term) && Survives(b, term) && Survives(c, term)
    ensures SurvivingCount([a, b, c], term) == 3
  {
    hide Survives;
    assert [a][..0] == [];
    assert SurvivingCount([a], term) == 1;
    assert [a, b][..1] == [a];
    assert SurvivingCount([a, b], term) == 2;
    assert [a, b, c][..2] == [a, b];
  }

  lemma FileFields(term: string)
    ensures PlainFields(FILE_SEARCH, FILE_NESTED) && PlainFields(FILE_FILTERS, FILE_NESTED)
    ensures SurvivingCount(FILE_SEARCH, term) == 3
    ensures "OR" !in FILE_FILTERS && "OR" !in SearchHeads(FILE_SEARCH, FILE_NESTED)
  {
    hide PlainFields, Survives, SearchHeads, SurvivingCount, FILE_NESTED;
    FileFieldsDirect();
    NoIdField("name", term);
    NoIdField("url", term);
    NoIdField("description", term);
    CountThree("name", "url", "description", term);
    DirectHeads(FILE_SEARCH, FILE_NESTED);
  }

  predicate Sends(filters: seq<Filter>, key: string, value: Value) {
    exists i :: 0 <= i < |filters| && !filters[i].ignored && filters[i].key == key && filters[i].value == value
  }

  /** The request sends, as allowed filters, every test of the group. */
  predicate Requested(fs: Fields, filters: seq<Filter>) {
    match fs
    case Nil => true
    case Field(key, node, rest) =>
      && node.Test? && Sends(filters, key, node.value)
      && key in FILE_FILTERS && Requested(rest, filters)
  }

  lemma {:induction false} SurvivorIn(filters: seq<Filter>, filterable: seq<string>, nested: NestedMap, i: nat)
    requires i < |filters| && !filters[i].ignored && filters[i].key in filterable
    ensures Entry(PathFor(filters[i].key, nested), filters[i].value) in Survivors(filters, filterable, nested)
  {
    if i < |filters| - 1 {
      SurvivorIn(filters[..|filters| - 1], filterable, nested, i);
    }
  }

  lemma DirectPath(key: string)
    requires key in FILE_FILTERS
    ensures PathFor(key, FILE_NESTED) == [key] == RequestPath(key, FILE_NESTED)
  {
    hide FILE_NESTED, RequestPath, IsNested;
    FileFieldsDirect();
    PathForIs(key, FILE_NESTED);
    assert !IsNested(key, FILE_NESTED);
  }

  lemma DirectSurvivor(filters: seq<Filter>, key: string, value: Value)
    ensures Entry([key], value) in Survivors(filters, FILE_FILTERS, FILE_NESTED) <==>
            && key in FILE_FILTERS
            && Sends(filters, key, value)
  {
    hide FILE_FILTERS, FILE_NESTED, Survivors, RequestPath, PathFor;
    if Entry([key], value) in Survivors(filters, FILE_FILTERS, FILE_NESTED) {
      SurvivorOrigin(filters, FILE_FILTERS, FILE_NESTED, Entry([key], value));
      var i :| 0 <= i < |filters| && !filters[i].ignored && filters[i].key in FILE_FILTERS
               && Entry([key], value) == Entry(RequestPath(filters[i].key, FILE_NESTED), filters[i].value);
      DirectPath(filters[i].key);
      assert [key][0] == [filters[i].key][0];
    }
    if key in FILE_FILTERS {
      DirectPath(key);
      forall i | 0 <= i < |filters| && !filters[i].ignored && filters[i].key == key && filters[i].value == value
        ensures Entry([key], value) in Survivors(filters, FILE_FILTERS, FILE_NESTED)
      {
        SurvivorIn(filters, FILE_FILTERS, FILE_NESTED, i);
      }
    }
  }

  lemma {:induction false} RequestedIsDemanded(fs: Fields, filters: seq<Filter>)
    ensures Demanded(fs, Survivors(filters, FILE_FILTERS, FILE_NESTED)) <==> Requested(fs, filters)
  {
    if fs.Field? {
      hide FILE_FILTERS, FILE_NESTED, Survivors;
      RequestedIsDemanded(fs.rest, filters);
      if fs.node.Test? {
        DirectSurvivor(filters, fs.key, fs.node.value);
      }
    }
  }

  /** The file listing keeps the caller's access scope exactly when it is not searched, or when the
      request's own filters demand every test of one of the scope's groups. */
  lemma FileListingScope(scope: seq<Fields>, filters: seq<Filter>, term: Option<string>)
    requires DistinctFilters(filters) && forall i :: 0 <= i < |scope| ==> OpaqueTests(scope[i])
    ensures
      var filter := FilterWhere(filters, FILE_FILTERS, FILE_NESTED);
      var search := BuildSearchWhere(term, FILE_SEARCH, FILE_NESTED);
      filter.Some? &&
      (Keeps(ScopeBase(scope), BuildWhere(ScopeBase(scope), filter.value, search)) <==>
       ShouldIgnore(term) || exists i :: 0 <= i < |scope| && Requested(scope[i], filters))
  {
    hide SetAll, Keeps, Compatible, Survivors, PlainFields, Demanded, Requested, BuildSearchWhere, BuildWhere;
    FileFields(if term.Some? then term.value else "");
    DirectSurvivors(filters, FILE_FILTERS, FILE_NESTED);
    ScopeKeptExactly(scope, Survivors(filters, FILE_FILTERS, FILE_NESTED), term, FILE_SEARCH, FILE_NESTED);
    forall i | 0 <= i < |scope|
      ensures Demanded(scope[i], Survivors(filters, FILE_FILTERS, FILE_NESTED)) <==> Requested(scope[i], filters)
    {
      RequestedIsDemanded(scope[i], filters);
    }
  }

  // ---------------------------------------------------------------- pages

  /** findMany with skip and take over the ordered result. */
  function Page<T>(all: seq<T>, page: nat, limit: nat): seq<T>
    requires page >= 1
  {
    var skip := (page - 1) * limit;
    if skip >= |all| then [] else if skip + limit >= |all| then all[skip..] else all[skip..skip + limit]
  }

  function TotalPages(total: nat, limit: int): nat {
    if limit > 0 then (total + limit - 1) / limit else 0
  }

  function FirstPages<T>(all: seq<T>, n: nat, limit: nat): seq<T> {
    if n == 0 then [] else FirstPages(all, n - 1, limit) + Page(all, n, limit)
  }

  lemma {:induction false} FirstPagesAre<T>(all: seq<T>, n: nat, limit: nat)
    ensures FirstPages(all, n, limit) == if n * limit >= |all| then all else all[..n * limit]
  {
    if n > 0 {
      FirstPagesAre(all, n - 1, limit);
      assert n * limit == (n - 1) * limit + limit;
    }
  }

  /** The pages 1 to `totalPages` together are the whole result, in order, and the page before the last
      does not complete it. */
  lemma PagesConcatenate<T>(all: seq<T>, limit: nat)
    requires limit > 0
    ensures FirstPages(all, TotalPages(|all|, limit), limit) == all
    ensures all != [] ==> |FirstPages(all, TotalPages(|all|, limit) - 1, limit)| < |all|
    ensures forall none: int :: none <= 0 ==> TotalPages(|all|, none) == 0
  {
    forall none: int | none <= 0
      ensures TotalPages(|all|, none) == 0
    {
    }
    hide TotalPages, Page;
    var n := TotalPages(|all|, limit);
    CeilingBounds(|all|, limit);
    FirstPagesAre(all, n, limit);
    if all != [] {
      FirstPagesAre(all, n - 1, limit);
    }
  }

  lemma CeilingBounds(total: nat, limit: nat)
    requires limit > 0
    ensures TotalPages(total, limit) * limit >= total
    ensures total > 0 ==> TotalPages(total, limit) >= 1 && (TotalPages(total, limit) - 1) * limit < total
  {
    var x := total + limit - 1;
    var q := x / limit;
    assert x == q * limit + x % limit;
    assert (q - 1) * limit == q * limit - limit;
    if q <= 0 {
      assert q * limit <= 0;
    }
  }
}
