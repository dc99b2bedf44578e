// dumpJson and jsonEqual: the canonical text every stored row, hash and equality test of
// the system goes through.

module CanonicalJson {
  import opened CodeUnits
  import opened JsonNumber
  import opened JsonText
  import opened Prelude

  // A JavaScript value as dumpJson receives it. `NonFinite` is NaN or an infinity;
  // `extraKeys` are own non-index properties of an array, `symbolKeys` enumerable
  // symbol-keyed properties, and `plain` says that the prototype is Object.prototype or null.
  datatype JsValue =
    | Undefined
    | FunctionValue
    | SymbolValue
    | BigIntValue
    | NonFinite
    | JsNull
    | JsBool(b: bool)
    | JsNumber(num: Numeral)
    | JsString(text: Text)
    | JsArray(elements: Elements, extraKeys: bool, symbolKeys: bool)
    | JsObject(fields: Fields, plain: bool, symbolKeys: bool)

  datatype Elements =
    | NoElements
    | Hole(rest: Elements)
    | Element(value: JsValue, rest: Elements)

  // String-keyed properties in enumeration order.
  datatype Fields = NoFields | Field(key: Text, value: JsValue, rest: Fields)

  // `before(k, l)`: the rebuilt object enumerates key k ahead of key l.
  type KeyOrder = (Text, Text) -> bool

  // ---- dumpJson ------------------------------------------------------------

  function FieldKeys(fields: Fields): set<Text> {
    if fields.NoFields? then {} else {fields.key} + FieldKeys(fields.rest)
  }

  function MemberKeys(members: Members): set<Text> {
    if members.NoMembers? then {} else {members.key} + MemberKeys(members.rest)
  }

  predicate HasHole(elements: Elements) {
    match elements
    case NoElements => false
    case Hole(_) => true
    case Element(_, rest) => HasHole(rest)
  }

  function Insert(key: Text, value: Json, members: Members, before: KeyOrder): (r: Members)
    ensures MemberKeys(r) == MemberKeys(members) + {key}
  {
    if members.NoMembers? || !before(members.key, key) then Member(key, value, members)
    else Member(members.key, members.value, Insert(key, value, members.rest, before))
  }

  // A stable sort by key.
  function SortMembers(members: Members, before: KeyOrder): (r: Members)
    ensures MemberKeys(r) == MemberKeys(members)
  {
    if members.NoMembers? then NoMembers
    else Insert(members.key, members.value, SortMembers(members.rest, before), before)
  }

  // None is the TypeError of a value JSON cannot represent faithfully. Sorting reads only
  // keys, so values may be stabilized before or after it.
  function Stabilize(v: JsValue, before: KeyOrder): Option<Json>
    decreases v
  {
    match v
    case Undefined => None
    case FunctionValue => None
    case SymbolValue => None
    case BigIntValue => None
    case NonFinite => None
    case JsNull => Some(Null)
    case JsBool(b) => Some(Bool(b))
    case JsNumber(x) => Some(Number(x))
    case JsString(s) => Some(String(s))
    case JsArray(elements, extraKeys, symbolKeys) =>
      if HasHole(elements) || extraKeys || symbolKeys then None
      else (match StabilizeElements(elements, before)
        case None => None
        case Some(items) => Some(Array(items)))
    case JsObject(fields, plain, symbolKeys) =>
      if !plain || symbolKeys then None
      else match StabilizeFields(fields, before)
        case None => None
        case Some(members) => Some(Object(SortMembers(members, before)))
  }

  function StabilizeElements(elements: Elements, before: KeyOrder): Option<Items>
    decreases elements
  {
    match elements
    case NoElements => Some(NoItems)
    case Hole(_) => None
    case Element(value, rest) =>
      match (Stabilize(value, before), StabilizeElements(rest, before))
      case (Some(head), Some(tail)) => Some(Item(head, tail))
      case _ => None
  }

  function StabilizeFields(fields: Fields, before: KeyOrder): (r: Option<Members>)
    ensures r.Some? ==> MemberKeys(r.value) == FieldKeys(fields)
    decreases fields
  {
    match fields
    case NoFields => Some(NoMembers)
    case Field(key, value, rest) =>
      match (Stabilize(value, before), StabilizeFields(rest, before))
      case (Some(v), Some(members)) => Some(Member(key, v, members))
      case _ => None
  }

  function DumpJson(v: JsValue, before: KeyOrder): Option<Text> {
    match Stabilize(v, before)
    case None => None
    case Some(j) => Some(Print(j))
  }

  // None when either side throws.
  function JsonEqual(a: JsValue, b: JsValue, before: KeyOrder): Option<bool> {
    match (DumpJson(a, before), DumpJson(b, before))
    case (Some(s), Some(t)) => Some(s == t)
    case _ => None
  }

  // ---- What a value means --------------------------------------------------

  // A JSON value with its objects as maps, so that key order is forgotten.
  datatype Value =
    | VNull
    | VBool(b: bool)
    | VNumber(num: Num)
    | VString(text: Text)
    | VArray(items: seq<Value>)
    | VObject(fields: map<Text, Value>)

  // JSON can represent the value: nothing in it would be dropped, nulled or flattened.
  predicate Representable(v: JsValue)
    decreases v
  {
    match v
    case JsNull => true
    case JsBool(_) => true
    case JsNumber(_) => true
    case JsString(_) => true
    case JsArray(elements, extraKeys, symbolKeys) =>
      !extraKeys && !symbolKeys && RepresentableElements(elements)
    case JsObject(fields, plain, symbolKeys) =>
      plain && !symbolKeys && RepresentableFields(fields)
    case _ => false
  }

  predicate RepresentableElements(elements: Elements)
    decreases elements
  {
    match elements
    case NoElements => true
    case Hole(_) => false
    case Element(value, rest) => Representable(value) && RepresentableElements(rest)
  }

  predicate RepresentableFields(fields: Fields)
    decreases fields
  {
    match fields
    case NoFields => true
    case Field(_, value, rest) => Representable(value) && RepresentableFields(rest)
  }

  // JavaScript objects never carry the same key twice.
  predicate DistinctKeys(v: JsValue)
    decreases v
  {
    match v
    case JsArray(elements, _, _) => DistinctInElements(elements)
    case JsObject(fields, _, _) => DistinctInFields(fields)
    case _ => true
  }

  predicate DistinctInElements(elements: Elements)
    decreases elements
  {
    match elements
    case NoElements => true
    case Hole(rest) => DistinctInElements(rest)
    case Element(value, rest) => DistinctKeys(value) && DistinctInElements(rest)
  }

  predicate DistinctInFields(fields: Fields)
    decreases fields
  {
    match fields
    case NoFields => true
    case Field(key, value, rest) =>
      key !in FieldKeys(rest) && DistinctKeys(value) && DistinctInFields(rest)
  }

  function Denote(v: JsValue): Value
    requires Representable(v)
    decreases v
  {
    match v
    case JsNull => VNull
    case JsBool(b) => VBool(b)
    case JsNumber(x) => VNumber(x.Canonical())
    case JsString(s) => VString(s)
    case JsArray(elements, _, _) => VArray(DenoteElements(elements))
    case JsObject(fields, _, _) => VObject(DenoteFields(fields))
  }

  function DenoteElements(elements: Elements): seq<Value>
    requires RepresentableElements(elements)
    decreases elements
  {
    if elements.NoElements? then [] else [Denote(elements.value)] + DenoteElements(elements.rest)
  }

  function DenoteFields(fields: Fields): map<Text, Value>
    requires RepresentableFields(fields)
    decreases fields
  {
    if fields.NoFields? then map[]
    else DenoteFields(fields.rest)[fields.key := Denote(fields.value)]
  }

  function Meaning(j: Json): Value
    decreases j
  {
    match j
    case Null => VNull
    case Bool(b) => VBool(b)
    case Number(x) => VNumber(x.Canonical())
    case String(s) => VString(s)
    case Array(items) => VArray(MeaningItems(items))
    case Object(members) => VObject(MeaningMembers(members))
  }

  function MeaningItems(items: Items): seq<Value>
    decreases items
  {
    if items.NoItems? then [] else [Meaning(items.head)] + MeaningItems(items.tail)
  }

  function MeaningMembers(members: Members): (m: map<Text, Value>)
    ensures m.Keys == MemberKeys(members)
    decreases members
  {
    if members.NoMembers? then map[]
    else MeaningMembers(members.rest)[members.key := Meaning(members.value)]
  }

  // Every key of the value, at any depth.
  function AllKeys(v: JsValue): set<Text>
    decreases v
  {
    match v
    case JsArray(elements, _, _) => AllKeysOfElements(elements)
    case JsObject(fields, _, _) => AllKeysOfFields(fields)
    case _ => {}
  }

  function AllKeysOfElements(elements: Elements): set<Text>
    decreases elements
  {
    match elements
    case NoElements => {}
    case Hole(rest) => AllKeysOfElements(rest)
    case Element(value, rest) => AllKeys(value) + AllKeysOfElements(rest)
  }

  function AllKeysOfFields(fields: Fields): set<Text>
    decreases fields
  {
    match fields
    case NoFields => {}
    case Field(key, value, rest) => {key} + AllKeys(value) + AllKeysOfFields(rest)
  }

  // ---- dumpJson refuses exactly the unrepresentable ------------------------

  lemma {:induction false} StabilizeSucceedsIff(v: JsValue, before: KeyOrder)
    ensures Stabilize(v, before).Some? <==> Representable(v)
    decreases v
  {
    match v
    case JsArray(elements, _, _) => StabilizeElementsSucceedsIff(elements, before);
    case JsObject(fields, _, _) => StabilizeFieldsSucceedsIff(fields, before);
    case _ =>
  }

  lemma {:induction false} StabilizeElementsSucceedsIff(elements: Elements, before: KeyOrder)
    ensures StabilizeElements(elements, before).Some? <==> RepresentableElements(elements)
    ensures RepresentableElements(elements) ==> !HasHole(elements)
    decreases elements
  {
    match elements
    case Element(value, rest) =>
      StabilizeSucceedsIff(value, before);
      StabilizeElementsSucceedsIff(rest, before);
    case _ =>
  }

  lemma {:induction false} StabilizeFieldsSucceedsIff(fields: Fields, before: KeyOrder)
    ensures StabilizeFields(fields, before).Some? <==> RepresentableFields(fields)
    decreases fields
  {
    match fields
    case Field(_, value, rest) =>
      StabilizeSucceedsIff(value, before);
      StabilizeFieldsSucceedsIff(rest, before);
    case NoFields =>
  }

  // dumpJson throws exactly on the values JSON cannot represent faithfully.
  lemma DumpSucceedsIffRepresentable(v: JsValue, before: KeyOrder)
    ensures DumpJson(v, before).Some? <==> Representable(v)
  {
    StabilizeSucceedsIff(v, before);
  }

  // ---- Stabilizing keeps the meaning ---------------------------------------

  lemma InsertMeaning(key: Text, value: Json, members: Members, before: KeyOrder)
    requires key !in MemberKeys(members)
    requires DistinctMembers(members)
    ensures MeaningMembers(Insert(key, value, members, before))
         == MeaningMembers(members)[key := Meaning(value)]
    ensures DistinctMembers(Insert(key, value, members, before))
  {
    hide Meaning;
    if members.Member? && before(members.key, key) {
      InsertMeaning(key, value, members.rest, before);
      UpdatesCommute(
        MeaningMembers(members.rest), key, Meaning(value), members.key, Meaning(members.value));
    }
  }

  lemma UpdatesCommute(m: map<Text, Value>, k: Text, v: Value, l: Text, w: Value)
    requires k != l
    ensures m[k := v][l := w] == m[l := w][k := v]
  {
  }

  predicate DistinctMembers(members: Members) {
    members.Member? ==> members.key !in MemberKeys(members.rest) && DistinctMembers(members.rest)
  }

  lemma SortMeaning(members: Members, before: KeyOrder)
    requires DistinctMembers(members)
    ensures MeaningMembers(SortMembers(members, before)) == MeaningMembers(members)
    ensures DistinctMembers(SortMembers(members, before))
  {
    if members.Member? {
      SortMeaning(members.rest, before);
      InsertMeaning(members.key, members.value, SortMembers(members.rest, before), before);
    }
  }

  lemma {:induction false} StabilizeMeaning(v: JsValue, before: KeyOrder)
    requires Representable(v) && DistinctKeys(v)
    ensures Stabilize(v, before).Some? && Meaning(Stabilize(v, before).value) == Denote(v)
    decreases v
  {
    StabilizeSucceedsIff(v, before);
    match v
    case JsArray(elements, _, _) =>
      StabilizeElementsMeaning(elements, before);
    case JsObject(fields, _, _) =>
      StabilizeFieldsMeaning(fields, before);
      SortMeaning(StabilizeFields(fields, before).value, before);
    case _ =>
  }

  lemma {:induction false} StabilizeElementsMeaning(elements: Elements, before: KeyOrder)
    requires RepresentableElements(elements) && DistinctInElements(elements)
    ensures var r := StabilizeElements(elements, before);
            r.Some? && MeaningItems(r.value) == DenoteElements(elements)
    decreases elements
  {
    if elements.Element? {
      StabilizeMeaning(elements.value, before);
      StabilizeElementsMeaning(elements.rest, before);
    }
  }

  lemma {:induction false} StabilizeFieldsMeaning(fields: Fields, before: KeyOrder)
    requires RepresentableFields(fields) && DistinctInFields(fields)
    ensures var r := StabilizeFields(fields, before);
            && r.Some? && MeaningMembers(r.value) == DenoteFields(fields)
            && DistinctMembers(r.value)
    decreases fields
  {
    if fields.Field? {
      StabilizeMeaning(fields.value, before);
      StabilizeFieldsMeaning(fields.rest, before);
    }
  }

  lemma {:induction false} PlusZeroMeaning(j: Json)
    ensures Meaning(PlusZero(j)) == Meaning(j)
    decreases j
  {
    match j
    case Array(items) => PlusZeroItemsMeaning(items);
    case Object(members) => PlusZeroMembersMeaning(members);
    case _ =>
  }

  lemma {:induction false} PlusZeroItemsMeaning(items: Items)
    ensures MeaningItems(PlusZeroItems(items)) == MeaningItems(items)
    decreases items
  {
    if items.Item? {
      PlusZeroMeaning(items.head);
      PlusZeroItemsMeaning(items.tail);
    }
  }

  lemma {:induction false} PlusZeroMembersMeaning(members: Members)
    ensures MeaningMembers(PlusZeroMembers(members)) == MeaningMembers(members)
    ensures MemberKeys(PlusZeroMembers(members)) == MemberKeys(members)
    decreases members
  {
    if members.Member? {
      PlusZeroMeaning(members.value);
      PlusZeroMembersMeaning(members.rest);
    }
  }

  // Reading a dumped text back gives a value with the meaning of the one dumped.
  lemma ReadDumped(v: JsValue, before: KeyOrder)
    requires Representable(v) && DistinctKeys(v)
    ensures DumpJson(v, before).Some?
    ensures var r := ReadValue(DumpJson(v, before).value);
            r.Some? && r.value.1 == [] && Meaning(r.value.0) == Denote(v)
  {
    StabilizeMeaning(v, before);
    var j := Stabilize(v, before).value;
    ReadPrinted(j, []);
    assert Print(j) + [] == Print(j);
    PlusZeroMeaning(j);
  }

  // Two values with one dump have one meaning, whatever the key order does.
  lemma EqualDumpsEqualMeanings(a: JsValue, b: JsValue, before: KeyOrder)
    requires Representable(a) && DistinctKeys(a) && Representable(b) && DistinctKeys(b)
    requires DumpJson(a, before) == DumpJson(b, before)
    ensures Denote(a) == Denote(b)
  {
    ReadDumped(a, before);
    ReadDumped(b, before);
  }

  // ---- Equal meanings dump to equal texts ----------------------------------

  // A strict total order on the keys in `ks`.
  ghost predicate Orders(before: KeyOrder, ks: set<Text>) {
    && PartiallyOrders(before, ks)
    && Separates(before, ks)
  }

  ghost predicate PartiallyOrders(before: KeyOrder, ks: set<Text>) {
    && (forall k | k in ks :: !before(k, k))
    && (forall k, l, m | k in ks && l in ks && m in ks ::
          before(k, l) && before(l, m) ==> before(k, m))
  }

  ghost predicate Separates(before: KeyOrder, ks: set<Text>) {
    forall k, l | k in ks && l in ks && k != l :: before(k, l) || before(l, k)
  }

  // Each key comes before every later one.
  ghost predicate Ascending(members: Members, before: KeyOrder) {
    members.Member? ==>
      && (forall k | k in MemberKeys(members.rest) :: before(members.key, k))
      && Ascending(members.rest, before)
  }

  lemma InsertAscending(key: Text, value: Json, members: Members, before: KeyOrder, ks: set<Text>)
    requires Orders(before, ks) && MemberKeys(members) + {key} <= ks
    requires key !in MemberKeys(members) && Ascending(members, before)
    ensures Ascending(Insert(key, value, members, before), before)
  {
    if members.Member? {
      assert members.key in MemberKeys(members);
      if before(members.key, key) {
        InsertAscending(key, value, members.rest, before, ks);
      } else {
        assert before(key, members.key);
        forall k | k in MemberKeys(members) ensures before(key, k) {
          assert k == members.key || before(members.key, k);
        }
      }
    }
  }

  lemma SortAscending(members: Members, before: KeyOrder, ks: set<Text>)
    requires Orders(before, ks) && MemberKeys(members) <= ks && DistinctMembers(members)
    ensures Ascending(SortMembers(members, before), before)
  {
    if members.Member? {
      SortAscending(members.rest, before, ks);
      InsertAscending(members.key, members.value, SortMembers(members.rest, before), before, ks);
    }
  }

  // The canonical form: every object ascending, no negative zero.
  ghost predicate IsCanonical(j: Json, before: KeyOrder)
    decreases j
  {
    match j
    case Number(x) => x == x.Canonical()
    case Array(items) => CanonicalItems(items, before)
    case Object(members) => Ascending(members, before) && CanonicalMembers(members, before)
    case _ => true
  }

  ghost predicate CanonicalItems(items: Items, before: KeyOrder)
    decreases items
  {
    items.Item? ==> IsCanonical(items.head, before) && CanonicalItems(items.tail, before)
  }

  ghost predicate CanonicalMembers(members: Members, before: KeyOrder)
    decreases members
  {
    members.Member? ==>
      IsCanonical(members.value, before) && CanonicalMembers(members.rest, before)
  }

  lemma {:induction false} CanonicalIsUnique(a: Json, b: Json, before: KeyOrder, ks: set<Text>)
    requires IsCanonical(a, before) && IsCanonical(b, before) && PartiallyOrders(before, ks)
    requires KeysWithin(a, ks) && Meaning(a) == Meaning(b)
    ensures a == b
    decreases a
  {
    match a
    case Array(items) => CanonicalItemsUnique(items, b.items, before, ks);
    case Object(members) => CanonicalMembersUnique(members, b.members, before, ks);
    case _ =>
  }

  lemma {:induction false} CanonicalItemsUnique(a: Items, b: Items, before: KeyOrder, ks: set<Text>)
    requires CanonicalItems(a, before) && CanonicalItems(b, before) && PartiallyOrders(before, ks)
    requires ItemKeysWithin(a, ks) && MeaningItems(a) == MeaningItems(b)
    ensures a == b
    decreases a
  {
    if a.Item? {
      assert b.Item?;
      assert MeaningItems(a)[0] == Meaning(a.head) && MeaningItems(b)[0] == Meaning(b.head);
      assert MeaningItems(a)[1..] == MeaningItems(a.tail);
      assert MeaningItems(b)[1..] == MeaningItems(b.tail);
      CanonicalIsUnique(a.head, b.head, before, ks);
      CanonicalItemsUnique(a.tail, b.tail, before, ks);
    }
  }

  lemma {:induction false} CanonicalMembersUnique(
      a: Members, b: Members, before: KeyOrder, ks: set<Text>)
    requires CanonicalMembers(a, before) && CanonicalMembers(b, before)
    requires Ascending(a, before) && Ascending(b, before) && PartiallyOrders(before, ks)
    requires MemberKeysWithin(a, ks) && MeaningMembers(a) == MeaningMembers(b)
    ensures a == b
    decreases a
  {
    assert MemberKeys(a) == MemberKeys(b);
    if a.Member? {
      assert a.key in MemberKeys(b);
      assert b.Member?;
      assert b.key in MemberKeys(a);
      SameFirstKey(a, b, before, ks);
      assert MeaningMembers(a)[a.key] == Meaning(a.value);
      assert MeaningMembers(b)[b.key] == Meaning(b.value);
      CanonicalIsUnique(a.value, b.value, before, ks);
      SameRest(a, before, ks);
      SameRest(b, before, ks);
      CanonicalMembersUnique(a.rest, b.rest, before, ks);
    }
  }

  lemma SameFirstKey(a: Members, b: Members, before: KeyOrder, ks: set<Text>)
    requires a.Member? && b.Member? && MemberKeys(a) == MemberKeys(b) <= ks
    requires Ascending(a, before) && Ascending(b, before) && PartiallyOrders(before, ks)
    ensures a.key == b.key
  {
    assert a.key in MemberKeys(b) && b.key in MemberKeys(a);
  }

  lemma SameRest(a: Members, before: KeyOrder, ks: set<Text>)
    requires a.Member? && Ascending(a, before) && PartiallyOrders(before, ks) && a.key in ks
    ensures MeaningMembers(a.rest) == MeaningMembers(a) - {a.key}
  {
    assert a.key !in MemberKeys(a.rest);
  }

  ghost predicate KeysWithin(j: Json, ks: set<Text>)
    decreases j
  {
    match j
    case Array(items) => ItemKeysWithin(items, ks)
    case Object(members) => MemberKeysWithin(members, ks)
    case _ => true
  }

  ghost predicate ItemKeysWithin(items: Items, ks: set<Text>)
    decreases items
  {
    items.Item? ==> KeysWithin(items.head, ks) && ItemKeysWithin(items.tail, ks)
  }

  ghost predicate MemberKeysWithin(members: Members, ks: set<Text>)
    ensures MemberKeysWithin(members, ks) ==> MemberKeys(members) <= ks
    decreases members
  {
    members.Member? ==>
      && members.key in ks && KeysWithin(members.value, ks)
      && MemberKeysWithin(members.rest, ks)
  }

  lemma InsertCanonical(key: Text, value: Json, members: Members, before: KeyOrder, ks: set<Text>)
    requires CanonicalMembers(members, before) && IsCanonical(value, before)
    requires MemberKeysWithin(members, ks) && key in ks && KeysWithin(value, ks)
    ensures CanonicalMembers(Insert(key, value, members, before), before)
    ensures MemberKeysWithin(Insert(key, value, members, before), ks)
  {
  }

  lemma SortCanonical(members: Members, before: KeyOrder, ks: set<Text>)
    requires CanonicalMembers(members, before) && MemberKeysWithin(members, ks)
    ensures CanonicalMembers(SortMembers(members, before), before)
    ensures MemberKeysWithin(SortMembers(members, before), ks)
  {
    if members.Member? {
      SortCanonical(members.rest, before, ks);
      InsertCanonical(members.key, members.value, SortMembers(members.rest, before), before, ks);
    }
  }

  lemma InsertPlusZero(key: Text, value: Json, members: Members, before: KeyOrder)
    ensures PlusZeroMembers(Insert(key, value, members, before))
         == Insert(key, PlusZero(value), PlusZeroMembers(members), before)
  {
  }

  lemma SortPlusZero(members: Members, before: KeyOrder)
    ensures PlusZeroMembers(SortMembers(members, before))
         == SortMembers(PlusZeroMembers(members), before)
  {
    if members.Member? {
      InsertPlusZero(members.key, members.value, SortMembers(members.rest, before), before);
    }
  }

  lemma {:induction false} StabilizeCanonical(v: JsValue, before: KeyOrder, ks: set<Text>)
    requires Representable(v) && DistinctKeys(v) && AllKeys(v) <= ks && Orders(before, ks)
    ensures var r := Stabilize(v, before);
            r.Some? && IsCanonical(PlusZero(r.value), before) && KeysWithin(PlusZero(r.value), ks)
    decreases v
  {
    hide StabilizeElements, StabilizeFields, SortMembers, Ascending, CanonicalMembers, MemberKeysWithin;
    StabilizeSucceedsIff(v, before);
    match v
    case JsArray(elements, _, _) =>
      StabilizeElementsCanonical(elements, before, ks);
    case JsObject(fields, _, _) =>
      StabilizeFieldsCanonical(fields, before, ks);
      var members := StabilizeFields(fields, before).value;
      PlusZeroMembersMeaning(members);
      SortPlusZero(members, before);
      SortCanonical(PlusZeroMembers(members), before, ks);
      SortAscending(PlusZeroMembers(members), before, ks);
    case _ =>
  }

  lemma {:induction false} StabilizeElementsCanonical(
      elements: Elements, before: KeyOrder, ks: set<Text>)
    requires RepresentableElements(elements) && DistinctInElements(elements)
    requires AllKeysOfElements(elements) <= ks && Orders(before, ks)
    ensures var r := StabilizeElements(elements, before);
            && r.Some? && CanonicalItems(PlusZeroItems(r.value), before)
            && ItemKeysWithin(PlusZeroItems(r.value), ks)
    decreases elements
  {
    if elements.Element? {
      StabilizeCanonical(elements.value, before, ks);
      StabilizeElementsCanonical(elements.rest, before, ks);
    }
  }

  lemma {:induction false} StabilizeFieldsCanonical(
      fields: Fields, before: KeyOrder, ks: set<Text>)
    requires RepresentableFields(fields) && DistinctInFields(fields)
    requires AllKeysOfFields(fields) <= ks && Orders(before, ks)
    ensures var r := StabilizeFields(fields, before);
            && r.Some? && CanonicalMembers(PlusZeroMembers(r.value), before)
            && MemberKeysWithin(PlusZeroMembers(r.value), ks)
            && DistinctMembers(PlusZeroMembers(r.value))
    decreases fields
  {
    if fields.Field? {
      StabilizeCanonical(fields.value, before, ks);
      StabilizeFieldsCanonical(fields.rest, before, ks);
      PlusZeroMembersMeaning(StabilizeFields(fields.rest, before).value);
    }
  }

  // dumpJson is equal on two values exactly when they are the same JSON value up to key
  // order (with -0 as 0), provided the key order tells the keys in play apart.
  lemma DumpIsExact(a: JsValue, b: JsValue, before: KeyOrder)
    requires Representable(a) && DistinctKeys(a) && Representable(b) && DistinctKeys(b)
    requires Orders(before, AllKeys(a) + AllKeys(b))
    ensures JsonEqual(a, b, before) == Some(Denote(a) == Denote(b))
  {
    DumpSucceedsIffRepresentable(a, before);
    DumpSucceedsIffRepresentable(b, before);
    if DumpJson(a, before) == DumpJson(b, before) {
      EqualDumpsEqualMeanings(a, b, before);
    } else if Denote(a) == Denote(b) {
      var ks := AllKeys(a) + AllKeys(b);
      var x, y := Stabilize(a, before).value, Stabilize(b, before).value;
      StabilizeCanonical(a, before, ks);
      StabilizeCanonical(b, before, ks);
      StabilizeMeaning(a, before);
      StabilizeMeaning(b, before);
      PlusZeroMeaning(x);
      PlusZeroMeaning(y);
      CanonicalIsUnique(PlusZero(x), PlusZero(y), before, ks);
      PrintIgnoresZeroSign(x);
      PrintIgnoresZeroSign(y);
      assert false;
    }
  }

  // No two ways of listing the same object, with keys in `ks`, dump differently.
  ghost predicate BlindToKeyOrder(before: KeyOrder, ks: set<Text>) {
    forall a: JsValue, b: JsValue ::
      && Representable(a) && DistinctKeys(a) && Representable(b) && DistinctKeys(b)
      && AllKeys(a) <= ks && AllKeys(b) <= ks && Denote(a) == Denote(b)
      ==> DumpJson(a, before) == DumpJson(b, before)
  }

  function Pair(k: Text, l: Text): JsValue {
    JsObject(Field(k, JsNull, Field(l, JsNull, NoFields)), true, false)
  }

  lemma PairIsObject(k: Text, l: Text)
    requires k != l
    ensures Representable(Pair(k, l)) && DistinctKeys(Pair(k, l))
    ensures AllKeys(Pair(k, l)) == {k, l}
    ensures Denote(Pair(k, l)) == VObject(map[k := VNull, l := VNull])
  {
    var inner := Field(l, JsNull, NoFields);
    var fields := Field(k, JsNull, inner);
    assert RepresentableFields(inner) && DenoteFields(inner) == map[l := VNull];
    assert FieldKeys(inner) == {l};
    assert DistinctInFields(inner) && AllKeysOfFields(inner) == {l};
    assert RepresentableFields(fields) && DenoteFields(fields) == map[k := VNull, l := VNull];
    assert AllKeysOfFields(fields) == {k, l};
  }

  lemma TiedPairKeepsItsOrder(k: Text, l: Text, before: KeyOrder)
    requires !before(l, k)
    ensures Stabilize(Pair(k, l), before)
         == Some(Object(Member(k, Null, Member(l, Null, NoMembers))))
  {
    var inner := Field(l, JsNull, NoFields);
    assert StabilizeFields(inner, before) == Some(Member(l, Null, NoMembers));
    assert StabilizeFields(Field(k, JsNull, inner), before)
        == Some(Member(k, Null, Member(l, Null, NoMembers)));
    assert SortMembers(Member(l, Null, NoMembers), before) == Member(l, Null, NoMembers);
  }

  // Two keys the comparison does not tell apart keep the order they were written in, so
  // the same object written twice dumps to two texts.
  lemma TiedKeysDumpTwice(k: Text, l: Text, before: KeyOrder)
    requires k != l && !before(k, l) && !before(l, k)
    ensures DistinctKeys(Pair(k, l)) && DistinctKeys(Pair(l, k))
    ensures AllKeys(Pair(k, l)) == AllKeys(Pair(l, k)) == {k, l}
    ensures Representable(Pair(k, l)) && Representable(Pair(l, k))
    ensures Denote(Pair(k, l)) == Denote(Pair(l, k))
    ensures DumpJson(Pair(k, l), before) != DumpJson(Pair(l, k), before)
  {
    PairIsObject(k, l);
    PairIsObject(l, k);
    TiedPairKeepsItsOrder(k, l, before);
    TiedPairKeepsItsOrder(l, k, before);
    PairsPrintApart(k, l);
    hide Stabilize, Print, Pair, Denote, Representable, DistinctKeys, AllKeys;
  }

  lemma PairsPrintApart(k: Text, l: Text)
    requires k != l
    ensures Print(Object(Member(k, Null, Member(l, Null, NoMembers)))) !=
            Print(Object(Member(l, Null, Member(k, Null, NoMembers))))
  {
    var a := Object(Member(k, Null, Member(l, Null, NoMembers)));
    var b := Object(Member(l, Null, Member(k, Null, NoMembers)));
    ReadPrinted(a, []);
    ReadPrinted(b, []);
    hide Print;
    assert Print(a) + [] == Print(a) && Print(b) + [] == Print(b);
    assert PlusZero(a) != PlusZero(b);
  }

  // dumpJson forgets key order on the keys in `ks` if and only if the comparison
  // separates every two of them.
  lemma BlindIffSeparated(before: KeyOrder, ks: set<Text>)
    requires PartiallyOrders(before, ks)
    ensures BlindToKeyOrder(before, ks) <==> Separates(before, ks)
  {
    if Separates(before, ks) {
      forall a: JsValue, b: JsValue |
        && Representable(a) && DistinctKeys(a) && Representable(b) && DistinctKeys(b)
        && AllKeys(a) <= ks && AllKeys(b) <= ks && Denote(a) == Denote(b)
        ensures DumpJson(a, before) == DumpJson(b, before)
      {
        OrdersSubset(before, ks, AllKeys(a) + AllKeys(b));
        DumpIsExact(a, b, before);
      }
    } else {
      var k, l :| k in ks && l in ks && k != l && !before(k, l) && !before(l, k);
      TiedKeysDumpTwice(k, l, before);
    }
  }

  lemma OrdersSubset(before: KeyOrder, ks: set<Text>, smaller: set<Text>)
    requires Orders(before, ks) && smaller <= ks
    ensures Orders(before, smaller)
  {
  }
}
