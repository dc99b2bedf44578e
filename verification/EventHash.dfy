// The hash of an event over its canonical text: SHA-256 without collisions makes it tell any
// two events apart, which is what the chain takes of its digest.

module EventHash {
  import opened CanonicalJson
  import opened CodeUnits
  import opened EventChain
  import opened JsonText
  import opened Prelude

  // How strings become code units and integers become numbers.
  datatype Encoding = Encoding(text: string -> Text, numeral: int -> Numeral)

  ghost predicate Faithful(enc: Encoding) {
    && (forall s, t :: enc.text(s) == enc.text(t) ==> s == t)
    && (forall m, n :: enc.numeral(m).Canonical() == enc.numeral(n).Canonical() ==> m == n)
  }

  type Listing = seq<(string, JsValue)>

  function FieldsOf(enc: Encoding, l: Listing): Fields {
    if l == [] then NoFields else Field(enc.text(l[0].0), l[0].1, FieldsOf(enc, l[1..]))
  }

  function OptionalText(enc: Encoding, s: Option<string>): JsValue {
    if s.Some? then JsString(enc.text(s.value)) else JsNull
  }

  function OptionalNumber(enc: Encoding, n: Option<int>): JsValue {
    if n.Some? then JsNumber(enc.numeral(n.value)) else JsNull
  }

  // Every field of the event but its hash; `payload` is the payload as an object in memory.
  function Listed(enc: Encoding, workspace: string, e: Event, payload: JsValue): Listing {
    [ ("id", JsString(enc.text(e.id))),
      ("workspace_id", JsString(enc.text(workspace))),
      ("run_id", OptionalText(enc, e.runId)),
      ("seq", JsNumber(enc.numeral(e.seq_))),
      ("run_seq", OptionalNumber(enc, e.runSeq)),
      ("kind", JsString(enc.text(e.kind))),
      ("actor", JsString(enc.text(e.actor))),
      ("payload", payload),
      ("timestamp", JsString(enc.text(e.timestamp))),
      ("idempotency_key", OptionalText(enc, e.key)),
      ("prev_hash", OptionalText(enc, e.prevHash)) ]
  }

  function Content(enc: Encoding, workspace: string, e: Event, payload: JsValue): JsValue {
    JsObject(FieldsOf(enc, Listed(enc, workspace, e, payload)), true, false)
  }

  // The digest of the canonical text, "" standing for a throw.
  function HashOf(
      sha: Text -> string, enc: Encoding, before: KeyOrder, workspace: string, e: Event,
      payload: JsValue): string
  {
    var dumped := DumpJson(Content(enc, workspace, e, payload), before);
    if dumped.Some? then sha(dumped.value) else ""
  }

  ghost predicate CollisionFree(sha: Text -> string) {
    forall a, b :: sha(a) == sha(b) ==> a == b
  }

  // `payload` holds the event's payload.
  ghost predicate Holds(e: Event, payload: JsValue) {
    Representable(payload) && DistinctKeys(payload) && Denote(payload) == e.payload
  }

  // ---- Listings as objects -------------------------------------------------

  ghost predicate Proper(l: Listing) {
    && (forall i | 0 <= i < |l| :: Representable(l[i].1) && DistinctKeys(l[i].1))
    && (forall i, j | 0 <= i < j < |l| :: l[i].0 != l[j].0)
  }

  lemma {:induction false} FieldsDenote(enc: Encoding, l: Listing, i: int)
    requires Faithful(enc) && Proper(l)
    ensures RepresentableFields(FieldsOf(enc, l)) && DistinctInFields(FieldsOf(enc, l))
    ensures forall k :: k in FieldKeys(FieldsOf(enc, l)) ==> exists j :: 0 <= j < |l| && k == enc.text(l[j].0)
    ensures 0 <= i < |l| ==>
      var m := DenoteFields(FieldsOf(enc, l));
      enc.text(l[i].0) in m && m[enc.text(l[i].0)] == Denote(l[i].1)
  {
    if l != [] {
      var rest := l[1..];
      assert forall j :: 0 <= j < |rest| ==> rest[j] == l[j + 1];
      FieldsDenote(enc, rest, i - 1);
      assert enc.text(l[0].0) !in FieldKeys(FieldsOf(enc, rest));
      forall k | k in FieldKeys(FieldsOf(enc, l))
        ensures exists j :: 0 <= j < |l| && k == enc.text(l[j].0)
      {
        if k in FieldKeys(FieldsOf(enc, rest)) {
          var j :| 0 <= j < |rest| && k == enc.text(rest[j].0);
          assert k == enc.text(l[j + 1].0);
        } else {
          assert k == enc.text(l[0].0);
        }
      }
    }
  }

  const FIELD_NAMES :=
    ["id", "workspace_id", "run_id", "seq", "run_seq", "kind", "actor", "payload", "timestamp",
     "idempotency_key", "prev_hash"]

  lemma ListedNames(enc: Encoding, workspace: string, e: Event, payload: JsValue)
    ensures var l := Listed(enc, workspace, e, payload);
            |l| == |FIELD_NAMES| && forall i :: 0 <= i < |l| ==> l[i].0 == FIELD_NAMES[i]
  {
  }

  lemma NamesAreDistinct()
    ensures forall i, j | 0 <= i < j < |FIELD_NAMES| :: FIELD_NAMES[i] != FIELD_NAMES[j]
  {
  }

  lemma ListedValues(enc: Encoding, workspace: string, e: Event, payload: JsValue)
    requires Holds(e, payload)
    ensures var l := Listed(enc, workspace, e, payload);
            forall i | 0 <= i < |l| :: Representable(l[i].1) && DistinctKeys(l[i].1)
  {
  }

  lemma ListingIsProper(enc: Encoding, workspace: string, e: Event, payload: JsValue)
    requires Holds(e, payload)
    ensures Proper(Listed(enc, workspace, e, payload))
  {
    ListedNames(enc, workspace, e, payload);
    NamesAreDistinct();
    ListedValues(enc, workspace, e, payload);
    hide Listed, FIELD_NAMES;
  }

  lemma ContentIsRepresentable(enc: Encoding, workspace: string, e: Event, payload: JsValue)
    requires Faithful(enc) && Holds(e, payload)
    ensures var c := Content(enc, workspace, e, payload); Representable(c) && DistinctKeys(c)
  {
    ListingIsProper(enc, workspace, e, payload);
    hide Listed;
    FieldsDenote(enc, Listed(enc, workspace, e, payload), -1);
  }

  // Two contents of one meaning agree field by field.
  lemma SameMeaningSameField(
      enc: Encoding, workspace: string, e: Event, f: Event, p: JsValue, q: JsValue, i: nat)
    requires Faithful(enc) && Holds(e, p) && Holds(f, q) && i < 11
    requires var a, b := Content(enc, workspace, e, p), Content(enc, workspace, f, q);
             Representable(a) && Representable(b) && Denote(a) == Denote(b)
    ensures var l, m := Listed(enc, workspace, e, p), Listed(enc, workspace, f, q);
            Representable(l[i].1) && Representable(m[i].1) && Denote(l[i].1) == Denote(m[i].1)
  {
    var l, m := Listed(enc, workspace, e, p), Listed(enc, workspace, f, q);
    ListingIsProper(enc, workspace, e, p);
    ListingIsProper(enc, workspace, f, q);
    ListedNames(enc, workspace, e, p);
    ListedNames(enc, workspace, f, q);
    hide Listed;
    assert l[i].0 == m[i].0;
    FieldsDenote(enc, l, i);
    FieldsDenote(enc, m, i);
  }

  // ---- Hashes are equal exactly for equal events ---------------------------

  lemma SameText(enc: Encoding, s: string, t: string)
    requires Faithful(enc) && Denote(JsString(enc.text(s))) == Denote(JsString(enc.text(t)))
    ensures s == t
  {
  }

  lemma SameNumber(enc: Encoding, m: int, n: int)
    requires Faithful(enc) && Denote(JsNumber(enc.numeral(m))) == Denote(JsNumber(enc.numeral(n)))
    ensures m == n
  {
  }

  lemma SameOptionalText(enc: Encoding, s: Option<string>, t: Option<string>)
    requires Faithful(enc) && Denote(OptionalText(enc, s)) == Denote(OptionalText(enc, t))
    ensures s == t
  {
  }

  lemma SameOptionalNumber(enc: Encoding, m: Option<int>, n: Option<int>)
    requires Faithful(enc) && Denote(OptionalNumber(enc, m)) == Denote(OptionalNumber(enc, n))
    ensures m == n
  {
    if m.Some? && n.Some? {
      SameNumber(enc, m.value, n.value);
    }
  }

  lemma ListedFields(enc: Encoding, workspace: string, e: Event, payload: JsValue)
    ensures var l := Listed(enc, workspace, e, payload);
            && |l| == 11
            && l[0].1 == JsString(enc.text(e.id)) && l[2].1 == OptionalText(enc, e.runId)
            && l[3].1 == JsNumber(enc.numeral(e.seq_)) && l[4].1 == OptionalNumber(enc, e.runSeq)
            && l[5].1 == JsString(enc.text(e.kind)) && l[6].1 == JsString(enc.text(e.actor))
            && l[7].1 == payload && l[8].1 == JsString(enc.text(e.timestamp))
            && l[9].1 == OptionalText(enc, e.key) && l[10].1 == OptionalText(enc, e.prevHash)
  {
  }

  lemma SameMeaningSameEvent(
      enc: Encoding, workspace: string, e: Event, f: Event, p: JsValue, q: JsValue)
    requires Faithful(enc) && Holds(e, p) && Holds(f, q)
    requires var a, b := Content(enc, workspace, e, p), Content(enc, workspace, f, q);
             Representable(a) && Representable(b) && Denote(a) == Denote(b)
    ensures e.(hash := None) == f.(hash := None)
  {
    forall i: nat | i < 11
      ensures var l, m := Listed(enc, workspace, e, p), Listed(enc, workspace, f, q);
              Representable(l[i].1) && Representable(m[i].1) && Denote(l[i].1) == Denote(m[i].1)
    {
      SameMeaningSameField(enc, workspace, e, f, p, q, i);
    }
    ListedFields(enc, workspace, e, p);
    ListedFields(enc, workspace, f, q);
    hide Listed, Content, Denote, Faithful, OptionalText, OptionalNumber;
    SameText(enc, e.id, f.id);
    SameOptionalText(enc, e.runId, f.runId);
    SameNumber(enc, e.seq_, f.seq_);
    SameOptionalNumber(enc, e.runSeq, f.runSeq);
    SameText(enc, e.kind, f.kind);
    SameText(enc, e.actor, f.actor);
    SameText(enc, e.timestamp, f.timestamp);
    SameOptionalText(enc, e.key, f.key);
    SameOptionalText(enc, e.prevHash, f.prevHash);
  }

  // Without collisions, two events of one workspace share a hash exactly when they are the
  // same event up to that hash, however their payloads list their keys.
  lemma HashTellsEventsApart(
      sha: Text -> string, enc: Encoding, before: KeyOrder, workspace: string,
      e: Event, f: Event, p: JsValue, q: JsValue)
    requires CollisionFree(sha) && Faithful(enc) && Holds(e, p) && Holds(f, q)
    requires Orders(before, AllKeys(Content(enc, workspace, e, p)) + AllKeys(Content(enc, workspace, f, q)))
    ensures HashOf(sha, enc, before, workspace, e, p) == HashOf(sha, enc, before, workspace, f, q)
            <==> e.(hash := None) == f.(hash := None)
  {
    var a, b := Content(enc, workspace, e, p), Content(enc, workspace, f, q);
    ContentIsRepresentable(enc, workspace, e, p);
    ContentIsRepresentable(enc, workspace, f, q);
    DumpSucceedsIffRepresentable(a, before);
    DumpSucceedsIffRepresentable(b, before);
    DumpIsExact(a, b, before);
    if Denote(a) == Denote(b) {
      SameMeaningSameEvent(enc, workspace, e, f, p, q);
    }
    if e.(hash := None) == f.(hash := None) {
      SameEventSameMeaning(enc, workspace, e, f, p, q);
    }
  }

  lemma SameEventSameMeaning(
      enc: Encoding, workspace: string, e: Event, f: Event, p: JsValue, q: JsValue)
    requires Faithful(enc) && Holds(e, p) && Holds(f, q) && e.(hash := None) == f.(hash := None)
    requires var a, b := Content(enc, workspace, e, p), Content(enc, workspace, f, q);
             Representable(a) && Representable(b)
    ensures Denote(Content(enc, workspace, e, p)) == Denote(Content(enc, workspace, f, q))
  {
    var l, m := Listed(enc, workspace, e, p), Listed(enc, workspace, f, q);
    ListingIsProper(enc, workspace, e, p);
    ListingIsProper(enc, workspace, f, q);
    assert l == m[7 := ("payload", p)];
    hide Listed;
    SwappedValue(enc, m, 7, p);
  }

  // Replacing one value by one of the same meaning keeps the meaning of the object.
  lemma {:induction false} SwappedValue(enc: Encoding, l: Listing, i: nat, v: JsValue)
    requires Faithful(enc) && Proper(l) && i < |l|
    requires Representable(v) && DistinctKeys(v) && Denote(v) == Denote(l[i].1)
    ensures var n := l[i := (l[i].0, v)];
            && RepresentableFields(FieldsOf(enc, l)) && RepresentableFields(FieldsOf(enc, n))
            && DenoteFields(FieldsOf(enc, l)) == DenoteFields(FieldsOf(enc, n))
  {
    var n := l[i := (l[i].0, v)];
    FieldsDenote(enc, l, -1);
    if i == 0 {
      assert n[1..] == l[1..];
    } else {
      assert n[1..] == l[1..][i - 1 := (l[1..][i - 1].0, v)];
      SwappedValue(enc, l[1..], i - 1, v);
    }
  }

  // ---- What is hashed ------------------------------------------------------

  function TextOrNull(enc: Encoding, s: Option<string>): Value {
    if s.Some? then VString(enc.text(s.value)) else VNull
  }

  // The field of that name.
  ghost predicate HasField(enc: Encoding, fields: map<Text, Value>, name: string, v: Value) {
    enc.text(name) in fields && fields[enc.text(name)] == v
  }

  lemma HashedAt(enc: Encoding, workspace: string, e: Event, payload: JsValue, i: nat)
    requires Faithful(enc) && Holds(e, payload) && i < 11
    ensures Representable(Content(enc, workspace, e, payload))
    ensures Denote(Content(enc, workspace, e, payload)).VObject?
    ensures var (name, value) := Listed(enc, workspace, e, payload)[i];
            Representable(value)
            && HasField(enc, Denote(Content(enc, workspace, e, payload)).fields, name, Denote(value))
  {
    ContentIsRepresentable(enc, workspace, e, payload);
    ListingIsProper(enc, workspace, e, payload);
    ListedNames(enc, workspace, e, payload);
    hide Listed;
    FieldsDenote(enc, Listed(enc, workspace, e, payload), i);
  }

  lemma HashedKeys(enc: Encoding, workspace: string, e: Event, payload: JsValue)
    requires Faithful(enc) && Holds(e, payload)
    ensures Representable(Content(enc, workspace, e, payload))
    ensures Denote(Content(enc, workspace, e, payload)).VObject?
    ensures forall k :: k in Denote(Content(enc, workspace, e, payload)).fields ==>
              exists name :: k == enc.text(name) && name in FIELD_NAMES
  {
    var l := Listed(enc, workspace, e, payload);
    ContentIsRepresentable(enc, workspace, e, payload);
    ListingIsProper(enc, workspace, e, payload);
    ListedNames(enc, workspace, e, payload);
    hide Listed;
    FieldsDenote(enc, l, -1);
    KeysAreFields(FieldsOf(enc, l));
    hide FieldsOf, DenoteFields, Proper, Faithful;
    forall k | k in Denote(Content(enc, workspace, e, payload)).fields
      ensures exists name :: k == enc.text(name) && name in FIELD_NAMES
    {
      var j :| 0 <= j < 11 && k == enc.text(l[j].0);
      assert FIELD_NAMES[j] in FIELD_NAMES;
    }
  }

  lemma OptionsDenote(enc: Encoding, s: Option<string>, n: Option<int>)
    ensures Denote(OptionalText(enc, s)) == TextOrNull(enc, s)
    ensures Denote(OptionalNumber(enc, n)) ==
              if n.Some? then VNumber(enc.numeral(n.value).Canonical()) else VNull
  {
  }

  // What is hashed is an object of these eleven fields: the event with its workspace and
  // without its hash.
  lemma HashedFields(enc: Encoding, workspace: string, e: Event, payload: JsValue)
    requires Faithful(enc) && Holds(e, payload)
    ensures Representable(Content(enc, workspace, e, payload))
    ensures Denote(Content(enc, workspace, e, payload)).VObject?
    ensures var fields := Denote(Content(enc, workspace, e, payload)).fields;
            && HasField(enc, fields, "id", VString(enc.text(e.id)))
            && HasField(enc, fields, "workspace_id", VString(enc.text(workspace)))
            && HasField(enc, fields, "run_id", TextOrNull(enc, e.runId))
            && HasField(enc, fields, "seq", VNumber(enc.numeral(e.seq_).Canonical()))
            && HasField(enc, fields, "run_seq",
                        if e.runSeq.Some? then VNumber(enc.numeral(e.runSeq.value).Canonical()) else VNull)
            && HasField(enc, fields, "kind", VString(enc.text(e.kind)))
            && HasField(enc, fields, "actor", VString(enc.text(e.actor)))
            && HasField(enc, fields, "payload", e.payload)
            && HasField(enc, fields, "timestamp", VString(enc.text(e.timestamp)))
            && HasField(enc, fields, "idempotency_key", TextOrNull(enc, e.key))
            && HasField(enc, fields, "prev_hash", TextOrNull(enc, e.prevHash))
    ensures forall k :: k in Denote(Content(enc, workspace, e, payload)).fields ==>
              exists name :: k == enc.text(name) && name in FIELD_NAMES
    ensures |FIELD_NAMES| == 11
  {
    HashedKeys(enc, workspace, e, payload);
    ListedTexts(enc, workspace, e, payload);
    ListedOthers(enc, workspace, e, payload);
    hide *;
  }

  lemma ListedTexts(enc: Encoding, workspace: string, e: Event, payload: JsValue)
    requires Faithful(enc) && Holds(e, payload)
    ensures Representable(Content(enc, workspace, e, payload))
    ensures Denote(Content(enc, workspace, e, payload)).VObject?
    ensures var fields := Denote(Content(enc, workspace, e, payload)).fields;
            && HasField(enc, fields, "id", VString(enc.text(e.id)))
            && HasField(enc, fields, "workspace_id", VString(enc.text(workspace)))
            && HasField(enc, fields, "kind", VString(enc.text(e.kind)))
            && HasField(enc, fields, "actor", VString(enc.text(e.actor)))
            && HasField(enc, fields, "timestamp", VString(enc.text(e.timestamp)))
  {
    HashedAt(enc, workspace, e, payload, 0);
    HashedAt(enc, workspace, e, payload, 1);
    HashedAt(enc, workspace, e, payload, 5);
    HashedAt(enc, workspace, e, payload, 6);
    HashedAt(enc, workspace, e, payload, 8);
    hide Content, HasField, Faithful, Holds;
  }

  lemma ListedOthers(enc: Encoding, workspace: string, e: Event, payload: JsValue)
    requires Faithful(enc) && Holds(e, payload)
    ensures Representable(Content(enc, workspace, e, payload))
    ensures Denote(Content(enc, workspace, e, payload)).VObject?
    ensures var fields := Denote(Content(enc, workspace, e, payload)).fields;
            && HasField(enc, fields, "run_id", TextOrNull(enc, e.runId))
            && HasField(enc, fields, "seq", VNumber(enc.numeral(e.seq_).Canonical()))
            && HasField(enc, fields, "run_seq",
                        if e.runSeq.Some? then VNumber(enc.numeral(e.runSeq.value).Canonical()) else VNull)
            && HasField(enc, fields, "payload", e.payload)
            && HasField(enc, fields, "idempotency_key", TextOrNull(enc, e.key))
            && HasField(enc, fields, "prev_hash", TextOrNull(enc, e.prevHash))
  {
    HashedAt(enc, workspace, e, payload, 2);
    HashedAt(enc, workspace, e, payload, 3);
    HashedAt(enc, workspace, e, payload, 4);
    HashedAt(enc, workspace, e, payload, 7);
    HashedAt(enc, workspace, e, payload, 9);
    HashedAt(enc, workspace, e, payload, 10);
    OptionsDenote(enc, e.runId, e.runSeq);
    OptionsDenote(enc, e.key, None);
    OptionsDenote(enc, e.prevHash, None);
    hide Content, HasField, Faithful, OptionalText, OptionalNumber, TextOrNull;
  }

  lemma {:induction false} KeysAreFields(fields: Fields)
    requires RepresentableFields(fields)
    ensures DenoteFields(fields).Keys == FieldKeys(fields)
  {
    if fields.Field? {
      KeysAreFields(fields.rest);
    }
  }
}
