/**
 The generic audit handlers: a snapshot before each save, a diff after it, one log row per real
 change. The log is a history that can be replayed.
 */
module AuditLog {
  import opened Sequences

  // ----- Fields and values -----

  /** What a model attribute can hold, as far as serialization tells kinds apart. */
  datatype Value =
    | VNone
    | VBool(b: bool)
    | VInt(i: int)
    | VStr(s: string)
    | VTemporal(iso: string)
    | VUuid(text: string)
    | VDecimal(text: string)
    | VEnum(underlying: Json)
    | VBytes
    | VDocument(content: string)
    | VOther(text: string)

  datatype Json = JNull | JBool(b: bool) | JInt(i: int) | JStr(s: string) | JDoc(content: string)

  function Serialize(v: Value): Json {
    match v
    case VNone => JNull
    case VBool(b) => JBool(b)
    case VInt(i) => JInt(i)
    case VStr(s) => JStr(s)
    case VTemporal(iso) => JStr(iso)
    case VUuid(t) => JStr(t)
    case VDecimal(t) => JStr(t)
    case VEnum(u) => u
    case VBytes => JNull
    case VDocument(d) => JDoc(d)
    case VOther(t) => JStr(t)
  }

  /** Values of one kind, which is what one field holds. Bytes are not among them: they are never
      logged. */
  predicate SameKind(a: Value, b: Value) {
    || (a.VBool? && b.VBool?) || (a.VInt? && b.VInt?) || (a.VStr? && b.VStr?)
    || (a.VTemporal? && b.VTemporal?) || (a.VUuid? && b.VUuid?) || (a.VDecimal? && b.VDecimal?)
    || (a.VEnum? && b.VEnum? && a.underlying != JNull && b.underlying != JNull)
    || (a.VDocument? && b.VDocument?) || (a.VOther? && b.VOther?)
  }

  /** Two values a nullable field of one kind can hold. */
  predicate Comparable(a: Value, b: Value) {
    || (a.VNone? && b.VNone?)
    || (a.VNone? && SameKind(b, b))
    || (SameKind(a, a) && b.VNone?)
    || SameKind(a, b)
  }

  /** Serialization tells any two values of a field apart, and only None, bytes and an enum member that
      is itself None become null. */
  lemma SerializationIsFaithful(a: Value, b: Value)
    ensures Comparable(a, b) ==> (Serialize(a) == Serialize(b) <==> a == b)
    ensures Serialize(a) == JNull <==> a.VNone? || a.VBytes? || (a.VEnum? && a.underlying == JNull)
  {}

  /** Scalars are logged as they are, dates, identifiers and decimals as their text. */
  lemma SerializedForms(b: bool, i: int, text: string)
    ensures Serialize(VBool(b)) == JBool(b) && Serialize(VInt(i)) == JInt(i)
    ensures Serialize(VStr(text)) == Serialize(VTemporal(text)) == Serialize(VUuid(text)) == JStr(text)
    ensures Serialize(VDecimal(text)) == Serialize(VOther(text)) == JStr(text)
    ensures Serialize(VEnum(JInt(i))) == JInt(i) && Serialize(VEnum(JStr(text))) == JStr(text)
  {}

  datatype Field = Field(name: string, toMany: bool, oneToOne: bool, concrete: bool)

  const SENSITIVE_TOKENS: set<string> := {"password", "token", "secret", "hash", "otp", "mfa"}
  const NOISY_FIELDS: set<string> := {"updated_at", "created_at", "last_login"}

  function Lower(s: string): string {
    seq(|s|, i requires 0 <= i < |s| => if 'A' <= s[i] <= 'Z' then s[i] - 'A' + 'a' else s[i])
  }

  predicate OccursAt(s: string, i: nat, t: string) {
    i + |t| <= |s| && s[i..i + |t|] == t
  }

  predicate Contains(s: string, t: string) {
    exists i :: 0 <= i <= |s| && OccursAt(s, i, t)
  }

  predicate IsSensitive(name: string) {
    exists token :: token in SENSITIVE_TOKENS && Contains(Lower(name), token)
  }

  predicate IsAuditable(f: Field) {
    !f.toMany && !f.oneToOne && f.concrete && f.name !in NOISY_FIELDS && !IsSensitive(f.name)
  }

  /** The fields that must never be logged are not, whatever the case of their letters, and neither are
      time stamps, relations to many and computed fields; ordinary columns are. */
  lemma AuditableExamples()
    ensures forall name :: name in {"password", "API_TOKEN", "client_secret", "keyHash", "otp_code", "mfa_device",
                                    "updated_at", "created_at", "last_login"}
              ==> !IsAuditable(Field(name, false, false, true))
    ensures !IsAuditable(Field("city", true, false, true)) && !IsAuditable(Field("city", false, true, true))
    ensures !IsAuditable(Field("city", false, false, false))
    ensures IsAuditable(Field("name", false, false, true)) && IsAuditable(Field("city", false, false, true))
  {
    hide IsSensitive;
    TokenAt("password", "password", 0);
    TokenAt("API_TOKEN", "token", 4);
    TokenAt("client_secret", "secret", 7);
    TokenAt("keyHash", "hash", 3);
    TokenAt("otp_code", "otp", 0);
    TokenAt("mfa_device", "mfa", 0);
    assert Lower("name") == "name" && Lower("city") == "city";
    FourLettersAreAuditable("name");
    FourLettersAreAuditable("city");
  }

  /** `c` is the lower-case letter, or the same letter in upper case. */
  predicate SameLetter(c: char, letter: char) {
    'a' <= letter <= 'z' && (c == letter || c as int + 32 == letter as int)
  }

  /** A name is sensitive as soon as one of the six tokens stands anywhere in it. */
  lemma TokenAt(name: string, token: string, at: nat)
    requires token in {"password", "token", "secret", "hash", "otp", "mfa"}
    requires at + |token| <= |name|
    requires forall i :: 0 <= i < |token| ==> SameLetter(name[at + i], token[i])
    ensures IsSensitive(name)
  {
    var found := Lower(name)[at..at + |token|];
    forall i | 0 <= i < |token| ensures found[i] == token[i] {
      assert SameLetter(name[at + i], token[i]);
      assert found[i] == Lower(name)[at + i];
    }
    assert found == token && OccursAt(Lower(name), at, token);
  }

  type Instance = map<string, Value>
  type Snapshot = map<string, Json>

  function ReadField(instance: Instance, name: string): Value {
    if name in instance then instance[name] else VNone
  }

  function AuditableNames(fields: seq<Field>): set<string> {
    set i | 0 <= i < |fields| && IsAuditable(fields[i]) :: fields[i].name
  }

  function SnapshotOf(fields: seq<Field>, instance: Instance): Snapshot {
    map name | name in AuditableNames(fields) :: Serialize(ReadField(instance, name))
  }

  /** `_snapshot`: the loop over the model's fields. */
  method TakeSnapshot(fields: seq<Field>, instance: Instance) returns (out: Snapshot)
    ensures out == SnapshotOf(fields, instance)
  {
    out := map[];
    for i := 0 to |fields|
      invariant out == SnapshotOf(fields[..i], instance)
    {
      NamesSnoc(fields, i);
      if IsAuditable(fields[i]) {
        out := out[fields[i].name := Serialize(ReadField(instance, fields[i].name))];
      }
    }
    assert fields[..|fields|] == fields;
  }

  lemma NamesSnoc(fields: seq<Field>, i: nat)
    requires i < |fields|
    ensures AuditableNames(fields[..i + 1])
            == AuditableNames(fields[..i]) + if IsAuditable(fields[i]) then {fields[i].name} else {}
  {}

  // ----- Diffs -----

  datatype Change = Change(before: Json, after: Json)

  type Changes = map<string, Change>

  function Got(s: Snapshot, name: string): Json {
    if name in s then s[name] else JNull
  }

  function CreateChanges(s: Snapshot): Changes {
    map name | name in s :: Change(JNull, s[name])
  }

  function DeleteChanges(s: Snapshot): Changes {
    map name | name in s :: Change(s[name], JNull)
  }

  function UpdateChanges(before: Snapshot, after: Snapshot): Changes {
    map name | name in after && Got(before, name) != after[name] :: Change(Got(before, name), after[name])
  }

  // ----- The audited tables and their log -----

  datatype Key = Key(model: string, pk: nat)

  datatype Action = Create | Update | Delete

  datatype Entry = Entry(action: Action, key: Key, changes: Changes)

  /** `schema` gives each model's fields; a model it does not know has none. */
  datatype Store = Store(schema: map<string, seq<Field>>, rows: map<Key, Instance>, log: seq<Entry>)
  {
    function Fields(model: string): seq<Field> {
      if model in schema then schema[model] else []
    }

    function Snap(key: Key, instance: Instance): Snapshot {
      SnapshotOf(Fields(key.model), instance)
    }

    function Log(e: Entry): Store {
      this.(log := log + [e])
    }
  }

  /** The row a save writes: every attribute, or only those in `update_fields`. An attribute that
      is not in the map holds None. */
  function Written(row: Instance, instance: Instance, updateFields: Option<set<string>>): Instance {
    match updateFields
    case None => instance
    case Some(names) => (row - names) + (map name | name in instance && name in names :: instance[name])
  }

  /** Empty `update_fields` make `save` return at once, before any signal. */
  predicate SavesNothing(updateFields: Option<set<string>>) {
    updateFields == Some({})
  }

  /** Naming `update_fields` forces an update, which fails when there is no row to update. */
  predicate Refused(s: Store, key: Key, updateFields: Option<set<string>>) {
    key !in s.rows && updateFields.Some? && !SavesNothing(updateFields)
  }

  /** The store after saving an instance under a primary key: an insert when the row is new. */
  function Saved(s: Store, key: Key, instance: Instance, updateFields: Option<set<string>>): Store {
    if SavesNothing(updateFields) || Refused(s, key, updateFields) then s
    else if key !in s.rows then
      s.(rows := s.rows[key := instance]).Log(Entry(Create, key, CreateChanges(s.Snap(key, instance))))
    else
      var changes := UpdateChanges(s.Snap(key, s.rows[key]), s.Snap(key, instance));
      var written := s.(rows := s.rows[key := Written(s.rows[key], instance, updateFields)]);
      if changes == map[] then written else written.Log(Entry(Update, key, changes))
  }

  function Removed(s: Store, key: Key, instance: Instance): Store {
    s.(rows := s.rows - {key}).Log(Entry(Delete, key, DeleteChanges(s.Snap(key, instance))))
  }

  // ----- Replaying the log -----

  function Afters(changes: Changes): Snapshot {
    map name | name in changes :: changes[name].after
  }

  function Befores(changes: Changes): Snapshot {
    map name | name in changes :: changes[name].before
  }

  function ReplayOne(m: map<Key, Snapshot>, e: Entry): map<Key, Snapshot> {
    match e.action
    case Create => m[e.key := Afters(e.changes)]
    case Update => m[e.key := (if e.key in m then m[e.key] else map[]) + Afters(e.changes)]
    case Delete => m - {e.key}
  }

  function Replay(log: seq<Entry>): map<Key, Snapshot> {
    if log == [] then map[] else ReplayOne(Replay(log[..|log| - 1]), log[|log| - 1])
  }

  function AuditableState(s: Store): map<Key, Snapshot> {
    map key | key in s.rows :: s.Snap(key, s.rows[key])
  }

  /** No auditable field outside `update_fields` holds another value in memory than in the row. A
      save without `update_fields` is always clean. */
  predicate Clean(s: Store, key: Key, instance: Instance, updateFields: Option<set<string>>) {
    key in s.rows && updateFields.Some? && !SavesNothing(updateFields) ==>
      forall name :: name in AuditableNames(s.Fields(key.model)) && name !in updateFields.value ==>
        Serialize(ReadField(s.rows[key], name)) == Serialize(ReadField(instance, name))
  }

  lemma ReplaySnoc(log: seq<Entry>, e: Entry)
    ensures Replay(log + [e]) == ReplayOne(Replay(log), e)
  {}

  lemma UpdateRebuilds(before: Snapshot, after: Snapshot)
    requires before.Keys == after.Keys
    ensures before + Afters(UpdateChanges(before, after)) == after
    ensures UpdateChanges(before, after) == map[] <==> before == after
  {}

  /** What a save logs is what the replay then shows: the saved instance's snapshot. */
  lemma SaveReplays(s: Store, key: Key, instance: Instance, updateFields: Option<set<string>>)
    requires Replay(s.log) == AuditableState(s)
    requires !SavesNothing(updateFields) && !Refused(s, key, updateFields)
    ensures Replay(Saved(s, key, instance, updateFields).log) == AuditableState(s)[key := s.Snap(key, instance)]
    ensures |Saved(s, key, instance, updateFields).log| == |s.log|
            <==> key in s.rows && s.Snap(key, instance) == s.Snap(key, s.rows[key])
  {
    hide SnapshotOf, Written;
    if key !in s.rows {
      ReplaySnoc(s.log, Entry(Create, key, CreateChanges(s.Snap(key, instance))));
      assert Afters(CreateChanges(s.Snap(key, instance))) == s.Snap(key, instance);
    } else {
      SnapKeys(s, key, s.rows[key], instance);
      var changes := UpdateChanges(s.Snap(key, s.rows[key]), s.Snap(key, instance));
      UpdateRebuilds(s.Snap(key, s.rows[key]), s.Snap(key, instance));
      ReplaySnoc(s.log, Entry(Update, key, changes));
      assert AuditableState(s)[key] == s.Snap(key, s.rows[key]);
    }
  }

  lemma SnapKeys(s: Store, key: Key, a: Instance, b: Instance)
    ensures s.Snap(key, a).Keys == s.Snap(key, b).Keys == AuditableNames(s.Fields(key.model))
  {}

  lemma WrittenField(row: Instance, instance: Instance, updateFields: Option<set<string>>, name: string)
    ensures ReadField(Written(row, instance, updateFields), name)
            == ReadField(if updateFields.Some? && name !in updateFields.value then row else instance, name)
  {}

  lemma CleanMeansSameSnapshot(s: Store, key: Key, instance: Instance, updateFields: Option<set<string>>)
    requires key in s.rows && !SavesNothing(updateFields)
    ensures Clean(s, key, instance, updateFields)
            <==> s.Snap(key, Written(s.rows[key], instance, updateFields)) == s.Snap(key, instance)
  {
    hide AuditableNames, Written, ReadField, Serialize;
    var row := Written(s.rows[key], instance, updateFields);
    SnapKeys(s, key, row, instance);
    forall name | name in AuditableNames(s.Fields(key.model))
      ensures s.Snap(key, row)[name] == s.Snap(key, instance)[name]
              <==> (updateFields.Some? && name !in updateFields.value ==>
                      Serialize(ReadField(s.rows[key], name)) == Serialize(ReadField(instance, name)))
    {
      WrittenField(s.rows[key], instance, updateFields, name);
    }
    SameSnapshots(s.Snap(key, row), s.Snap(key, instance));
  }

  lemma SameSnapshots(a: Snapshot, b: Snapshot)
    requires a.Keys == b.Keys
    ensures a == b <==> forall name :: name in a ==> a[name] == b[name]
  {}

  lemma PutDiffers(m: map<Key, Snapshot>, key: Key, a: Snapshot, b: Snapshot)
    ensures m[key := a] == m[key := b] <==> a == b
  {
    assert m[key := a][key] == a && m[key := b][key] == b;
  }

  lemma StatePut(s: Store, s': Store, key: Key)
    requires s'.schema == s.schema && key in s'.rows && s'.rows == s.rows[key := s'.rows[key]]
    ensures AuditableState(s') == AuditableState(s)[key := s.Snap(key, s'.rows[key])]
  {}

  /** The replay still equals the tables after a save exactly when the save is clean. */
  lemma ReplayMatchesIffClean(s: Store, key: Key, instance: Instance, updateFields: Option<set<string>>)
    requires Replay(s.log) == AuditableState(s)
    ensures Replay(Saved(s, key, instance, updateFields).log) == AuditableState(Saved(s, key, instance, updateFields))
            <==> Clean(s, key, instance, updateFields)
  {
    hide SnapshotOf, Written, Replay, AuditableState, UpdateChanges, CreateChanges;
    if !SavesNothing(updateFields) && !Refused(s, key, updateFields) {
      SaveReplays(s, key, instance, updateFields);
      var s' := Saved(s, key, instance, updateFields);
      StatePut(s, s', key);
      PutDiffers(AuditableState(s), key, s.Snap(key, s'.rows[key]), s.Snap(key, instance));
      if key in s.rows {
        CleanMeansSameSnapshot(s, key, instance, updateFields);
      }
    }
  }

  lemma DeleteReplays(s: Store, key: Key, instance: Instance)
    requires Replay(s.log) == AuditableState(s)
    ensures Replay(Removed(s, key, instance).log) == AuditableState(Removed(s, key, instance))
  {}

  // ----- What a save logs, in terms of field values -----

  /** The auditable fields whose value differs. */
  function ChangedFields(fields: seq<Field>, a: Instance, b: Instance): set<string> {
    set name | name in AuditableNames(fields) && ReadField(a, name) != ReadField(b, name)
  }

  predicate FieldsComparable(fields: seq<Field>, a: Instance, b: Instance) {
    forall name :: name in AuditableNames(fields) ==> Comparable(ReadField(a, name), ReadField(b, name))
  }

  /** Saving a row that exists logs an UPDATE exactly when some auditable field's value changed, and the
      entry names exactly those fields. */
  lemma UpdateNamesTheChanges(s: Store, key: Key, instance: Instance, updateFields: Option<set<string>>)
    requires key in s.rows && !SavesNothing(updateFields)
    requires FieldsComparable(s.Fields(key.model), s.rows[key], instance)
    ensures var changed := ChangedFields(s.Fields(key.model), s.rows[key], instance);
            var log := Saved(s, key, instance, updateFields).log;
            && (changed == {} ==> log == s.log)
            && (changed != {} ==> |log| == |s.log| + 1 && log[..|s.log|] == s.log
                                  && log[|s.log|].action == Update && log[|s.log|].key == key
                                  && log[|s.log|].changes.Keys == changed)
  {
    hide AuditableNames, ReadField, Serialize, Comparable, Written;
    var changes := UpdateChanges(s.Snap(key, s.rows[key]), s.Snap(key, instance));
    forall name | name in AuditableNames(s.Fields(key.model))
      ensures name in changes <==> ReadField(s.rows[key], name) != ReadField(instance, name)
    {
      SerializationIsFaithful(ReadField(s.rows[key], name), ReadField(instance, name));
    }
    assert changes.Keys == ChangedFields(s.Fields(key.model), s.rows[key], instance);
  }

  /** What a save writes: nothing at all with empty `update_fields` or when they name fields of a row that
      is not there; otherwise that row alone, whole or in the named fields. */
  lemma SaveWrites(s: Store, key: Key, instance: Instance, updateFields: Option<set<string>>)
    ensures updateFields == Some({}) ==> Saved(s, key, instance, updateFields) == s
    ensures updateFields.Some? && key !in s.rows ==> Saved(s, key, instance, updateFields) == s
    ensures updateFields == None ==> Saved(s, key, instance, updateFields).rows == s.rows[key := instance]
    ensures updateFields.Some? && key in s.rows ==>
              var rows := Saved(s, key, instance, updateFields).rows;
              && rows.Keys == s.rows.Keys
              && (forall other :: other in s.rows && other != key ==> rows[other] == s.rows[other])
              && forall name :: ReadField(rows[key], name)
                                == ReadField(if name in updateFields.value then instance else s.rows[key], name)
  {
    hide SnapshotOf, UpdateChanges, CreateChanges;
  }

  /** A create names every auditable field, from null, and a delete every one, to null; the other side is
      null only where the value is None or cannot be logged. */
  lemma CreateAndDeleteNameAll(s: Store, key: Key, instance: Instance, name: string)
    requires name in AuditableNames(s.Fields(key.model))
    ensures key !in s.rows ==>
              var log := Saved(s, key, instance, None).log;
              && |log| == |s.log| + 1 && log[|s.log|].action == Create && log[|s.log|].key == key
              && name in log[|s.log|].changes
              && log[|s.log|].changes[name].before == JNull
              && (SameKind(ReadField(instance, name), ReadField(instance, name))
                  ==> log[|s.log|].changes[name].after != JNull)
    ensures var log := Removed(s, key, instance).log;
            && |log| == |s.log| + 1 && log[|s.log|].action == Delete && log[|s.log|].key == key
            && name in log[|s.log|].changes
            && log[|s.log|].changes[name].after == JNull
            && (SameKind(ReadField(instance, name), ReadField(instance, name))
                ==> log[|s.log|].changes[name].before != JNull)
  {
    hide AuditableNames, ReadField;
  }

  // ----- Whole runs -----

  datatype Operation =
    | SaveOp(key: Key, instance: Instance, updateFields: Option<set<string>>)
    | DeleteOp(key: Key, instance: Instance)

  function Apply(s: Store, op: Operation): Store {
    match op
    case SaveOp(key, instance, updateFields) => Saved(s, key, instance, updateFields)
    case DeleteOp(key, instance) => Removed(s, key, instance)
  }

  function ApplyAll(s: Store, ops: seq<Operation>): Store {
    if ops == [] then s else Apply(ApplyAll(s, ops[..|ops| - 1]), ops[|ops| - 1])
  }

  predicate CleanOperation(s: Store, op: Operation) {
    match op
    case SaveOp(key, instance, updateFields) => Clean(s, key, instance, updateFields)
    case DeleteOp(_, _) => true
  }

  /** A delete is of an existing row, and the instance agrees with it on every auditable field. */
  predicate UpToDate(s: Store, op: Operation) {
    op.DeleteOp? ==> op.key in s.rows && s.Snap(op.key, op.instance) == s.Snap(op.key, s.rows[op.key])
  }

  predicate Orderly(s: Store, op: Operation) {
    CleanOperation(s, op) && UpToDate(s, op)
  }

  predicate OrderlyRun(s: Store, ops: seq<Operation>) {
    forall i :: 0 <= i < |ops| ==> Orderly(ApplyAll(s, ops[..i]), ops[i])
  }

  /** The entry continues the history before it: its before-values are the replayed ones. */
  ghost predicate Continues(history: map<Key, Snapshot>, e: Entry) {
    match e.action
    case Create => e.key !in history && forall name :: name in e.changes ==> e.changes[name].before == JNull
    case Update => e.key in history && e.changes != map[]
                   && forall name :: name in e.changes ==>
                        && name in history[e.key]
                        && e.changes[name].before == history[e.key][name] != e.changes[name].after
    case Delete => e.key in history && Befores(e.changes) == history[e.key]
  }

  ghost predicate Coherent(log: seq<Entry>) {
    forall i :: 0 <= i < |log| ==> Continues(Replay(log[..i]), log[i])
  }

  /** One operation adds at most one entry. */
  predicate AddsAtMostOne(log: seq<Entry>, log': seq<Entry>) {
    log' == log || (|log'| == |log| + 1 && log'[..|log|] == log)
  }

  ghost predicate Extended(log: seq<Entry>, log': seq<Entry>) {
    log' == log || (|log'| == |log| + 1 && log'[..|log|] == log && Continues(Replay(log), log'[|log|]))
  }

  lemma CoherentStep(log: seq<Entry>, log': seq<Entry>)
    requires AddsAtMostOne(log, log')
    ensures Coherent(log') <==> Coherent(log) && Extended(log, log')
  {
    hide Continues, Replay;
    if log' != log {
      assert forall i :: 0 <= i <= |log| ==> log'[..i] == log[..i] by { assert log' == log + [log'[|log|]]; }
      assert log[..|log|] == log;
      if Coherent(log') {
        assert Continues(Replay(log'[..|log|]), log'[|log|]);
        forall i | 0 <= i < |log| ensures Continues(Replay(log[..i]), log[i]) {
          assert Continues(Replay(log'[..i]), log'[i]);
        }
      }
    }
  }

  lemma SaveContinues(s: Store, key: Key, instance: Instance, updateFields: Option<set<string>>)
    requires Replay(s.log) == AuditableState(s)
    ensures Extended(s.log, Saved(s, key, instance, updateFields).log)
  {
    hide SnapshotOf, AuditableNames, Written, Replay;
    if key in s.rows {
      SnapKeys(s, key, s.rows[key], instance);
      assert AuditableState(s)[key] == s.Snap(key, s.rows[key]);
    }
  }

  /** A DELETE entry shows what the table held exactly when the row was there and the deleted
      instance agreed with it. */
  lemma DeleteContinuesIff(s: Store, key: Key, instance: Instance)
    requires Replay(s.log) == AuditableState(s)
    ensures Extended(s.log, Removed(s, key, instance).log) <==> UpToDate(s, DeleteOp(key, instance))
  {
    hide SnapshotOf, AuditableNames, Replay;
    assert Befores(DeleteChanges(s.Snap(key, instance))) == s.Snap(key, instance);
    if key in s.rows {
      assert AuditableState(s)[key] == s.Snap(key, s.rows[key]);
    }
  }

  lemma EntryContinuesIff(s: Store, op: Operation)
    requires Replay(s.log) == AuditableState(s)
    ensures AddsAtMostOne(s.log, Apply(s, op).log)
    ensures Extended(s.log, Apply(s, op).log) <==> UpToDate(s, op)
  {
    hide Extended, Saved, Removed, Replay, AuditableState, Store.Snap;
    match op
    case SaveOp(key, instance, updateFields) =>
      SaveContinues(s, key, instance, updateFields);
      SaveAddsAtMostOne(s, key, instance, updateFields);
    case DeleteOp(key, instance) =>
      DeleteContinuesIff(s, key, instance);
      DeleteAddsOne(s, key, instance);
  }

  lemma SaveAddsAtMostOne(s: Store, key: Key, instance: Instance, updateFields: Option<set<string>>)
    ensures AddsAtMostOne(s.log, Saved(s, key, instance, updateFields).log)
  {
    hide SnapshotOf, Written, UpdateChanges, CreateChanges;
  }

  lemma DeleteAddsOne(s: Store, key: Key, instance: Instance)
    ensures AddsAtMostOne(s.log, Removed(s, key, instance).log)
  {
    hide SnapshotOf, DeleteChanges;
  }

  predicate Replays(s: Store) {
    Replay(s.log) == AuditableState(s)
  }

  lemma ReplaysIffClean(s: Store, op: Operation)
    requires Replays(s)
    ensures Replays(Apply(s, op)) <==> CleanOperation(s, op)
  {
    hide Clean, Saved, Removed, Replay, AuditableState;
    match op
    case SaveOp(key, instance, updateFields) => ReplayMatchesIffClean(s, key, instance, updateFields);
    case DeleteOp(key, instance) => DeleteReplays(s, key, instance);
  }

  ghost predicate ReplaysThroughout(s: Store, ops: seq<Operation>) {
    forall n :: 0 <= n <= |ops| ==> Replays(ApplyAll(s, ops[..n]))
  }

  ghost predicate CleanThroughout(s: Store, ops: seq<Operation>) {
    forall i :: 0 <= i < |ops| ==> CleanOperation(ApplyAll(s, ops[..i]), ops[i])
  }

  lemma ThroughoutSnoc(s: Store, rest: seq<Operation>, op: Operation)
    ensures ReplaysThroughout(s, rest + [op]) <==> ReplaysThroughout(s, rest) && Replays(ApplyAll(s, rest + [op]))
    ensures CleanThroughout(s, rest + [op]) <==> CleanThroughout(s, rest) && CleanOperation(ApplyAll(s, rest), op)
    ensures ReplaysThroughout(s, rest) ==> Replays(ApplyAll(s, rest))
  {
    hide Replays, CleanOperation, ApplyAll;
    var ops := rest + [op];
    assert forall n :: 0 <= n <= |rest| ==> rest[..n] == ops[..n];
    assert ops[..|ops|] == ops && rest[..|rest|] == rest;
    if ReplaysThroughout(s, ops) {
      forall n | 0 <= n <= |rest| ensures Replays(ApplyAll(s, rest[..n])) {
        assert Replays(ApplyAll(s, ops[..n]));
      }
    }
    if CleanThroughout(s, ops) {
      assert CleanOperation(ApplyAll(s, ops[..|rest|]), ops[|rest|]);
      forall i | 0 <= i < |rest| ensures CleanOperation(ApplyAll(s, rest[..i]), rest[i]) {
        assert CleanOperation(ApplyAll(s, ops[..i]), ops[i]);
      }
    }
  }

  /** Over a whole run the log replays to the tables after every step exactly when every save of
      the run was clean. */
  lemma {:induction false} ReplaysThroughoutIffClean(s: Store, ops: seq<Operation>)
    requires s.rows == map[] && s.log == []
    ensures ReplaysThroughout(s, ops) <==> CleanThroughout(s, ops)
  {
    hide CleanOperation, Apply, Replays;
    if ops == [] {
      StartsReplayed(s);
    } else {
      hide ReplaysThroughout, CleanThroughout;
      var rest, op := ops[..|ops| - 1], ops[|ops| - 1];
      assert ops == rest + [op];
      ReplaysThroughoutIffClean(s, rest);
      ThroughoutSnoc(s, rest, op);
      if ReplaysThroughout(s, rest) {
        ReplaysIffClean(ApplyAll(s, rest), op);
      }
    }
  }

  lemma StartsReplayed(s: Store)
    requires s.rows == map[] && s.log == []
    ensures Replays(s)
  {}

  /** A run of creates, whole-row saves and deletes, in any order and of any instances, needs no
      condition. */
  lemma {:induction false} WholeRowSavesReplay(s: Store, ops: seq<Operation>)
    requires s.rows == map[] && s.log == []
    requires forall op :: op in ops && op.SaveOp? ==> op.updateFields == None
    ensures Replays(ApplyAll(s, ops))
  {
    hide Apply, Replays;
    if ops == [] {
      StartsReplayed(s);
    } else {
      assert ops[|ops| - 1] in ops;
      WholeRowSavesReplay(s, ops[..|ops| - 1]);
      ReplaysIffClean(ApplyAll(s, ops[..|ops| - 1]), ops[|ops| - 1]);
    }
  }

  lemma OrderlySnoc(s: Store, rest: seq<Operation>, op: Operation)
    ensures OrderlyRun(s, rest + [op]) <==> OrderlyRun(s, rest) && Orderly(ApplyAll(s, rest), op)
  {
    hide Orderly, ApplyAll;
    var ops := rest + [op];
    assert forall n :: 0 <= n <= |rest| ==> rest[..n] == ops[..n];
    assert rest[..|rest|] == rest;
    if OrderlyRun(s, ops) {
      assert Orderly(ApplyAll(s, ops[..|rest|]), ops[|rest|]);
      forall i | 0 <= i < |rest| ensures Orderly(ApplyAll(s, rest[..i]), rest[i]) {
        assert Orderly(ApplyAll(s, ops[..i]), ops[i]);
      }
    }
  }

  /** As long as saves are clean, every entry's before-values are the values replayed up to it exactly
      when every delete was of an existing row and an up-to-date instance. */
  lemma {:induction false} CoherentIffOrderly(s: Store, ops: seq<Operation>)
    requires s.rows == map[] && s.log == [] && CleanThroughout(s, ops)
    ensures Coherent(ApplyAll(s, ops).log) <==> OrderlyRun(s, ops)
  {
    hide CleanOperation, UpToDate, Apply, Replays, Coherent, Extended;
    if ops == [] {
      assert Coherent([]) by { NothingToContinue(); }
    } else {
      hide CleanThroughout, ReplaysThroughout, OrderlyRun;
      var rest, op := ops[..|ops| - 1], ops[|ops| - 1];
      assert ops == rest + [op];
      ThroughoutSnoc(s, rest, op);
      OrderlySnoc(s, rest, op);
      CoherentIffOrderly(s, rest);
      ReplaysThroughoutIffClean(s, rest);
      OneMoreEntry(ApplyAll(s, rest), op);
    }
  }

  lemma NothingToContinue()
    ensures Coherent([])
  {}

  lemma OneMoreEntry(s: Store, op: Operation)
    requires Replays(s)
    ensures Coherent(Apply(s, op).log) <==> Coherent(s.log) && UpToDate(s, op)
  {
    hide Apply, UpToDate, Coherent, Extended, AddsAtMostOne;
    EntryContinuesIff(s, op);
    CoherentStep(s.log, Apply(s, op).log);
  }

  /** The log is an exact history of a run, replaying to the tables after every step with every
      before-value the replayed one, exactly when the run is orderly: its saves clean, its deletes of
      existing rows and up-to-date instances. */
  lemma LogReplaysToTheState(s: Store, ops: seq<Operation>)
    requires s.rows == map[] && s.log == []
    ensures ReplaysThroughout(s, ops) && Coherent(ApplyAll(s, ops).log) <==> OrderlyRun(s, ops)
    ensures OrderlyRun(s, ops) ==> Replays(ApplyAll(s, ops))
  {
    hide CleanOperation, UpToDate, Replays, Coherent, ApplyAll;
    ReplaysThroughoutIffClean(s, ops);
    if CleanThroughout(s, ops) {
      CoherentIffOrderly(s, ops);
      assert ops[..|ops|] == ops;
    }
  }

  // ----- Runs that are not orderly -----

  const BUILDING_FIELDS: seq<Field> := [Field("name", false, false, true), Field("city", false, false, true)]
  const BUILDING: Key := Key("Building", 1)
  const STORED: Instance := map["name" := VStr("North"), "city" := VStr("Delft")]
  const IN_MEMORY: Instance := map["name" := VStr("South"), "city" := VStr("Breda")]

  /** One building, created as stored above. */
  function OneBuilding(): Store {
    var s := Store(map["Building" := BUILDING_FIELDS], map[], []);
    Saved(s, BUILDING, STORED, None)
  }

  lemma FourLettersAreAuditable(name: string)
    requires |name| == 4 && Lower(name) == name && name[0] in "cn" && name[1] in "ai"
    ensures IsAuditable(Field(name, false, false, true))
  {
    forall token, i | token in SENSITIVE_TOKENS && 0 <= i <= |name| ensures !OccursAt(name, i, token) {
      if i + |token| <= |name| {
        assert name[i..i + |token|][0] == name[i];
      }
    }
  }

  lemma BuildingSnapshot(instance: Instance)
    ensures AuditableNames(BUILDING_FIELDS) == {"name", "city"}
    ensures SnapshotOf(BUILDING_FIELDS, instance)
            == map["name" := Serialize(ReadField(instance, "name")), "city" := Serialize(ReadField(instance, "city"))]
  {
    hide IsAuditable, Serialize, ReadField;
    assert Lower("name") == "name" && Lower("city") == "city";
    FourLettersAreAuditable("name");
    FourLettersAreAuditable("city");
    assert BUILDING_FIELDS[0].name == "name" && BUILDING_FIELDS[1].name == "city";
  }

  lemma OneBuildingReplays()
    ensures Replays(OneBuilding()) && OneBuilding().rows == map[BUILDING := STORED]
    ensures OneBuilding().Fields("Building") == BUILDING_FIELDS
  {
    hide Replays, SnapshotOf;
    var empty := Store(map["Building" := BUILDING_FIELDS], map[], []);
    StartsReplayed(empty);
    ReplaysIffClean(empty, SaveOp(BUILDING, STORED, None));
  }

  /** Both fields were changed in memory and the save names only one of them. The log then shows a
      city that the table does not have. */
  lemma UnnamedFieldIsLogged()
    ensures Replays(OneBuilding()) && !Clean(OneBuilding(), BUILDING, IN_MEMORY, Some({"name"}))
    ensures var after := Saved(OneBuilding(), BUILDING, IN_MEMORY, Some({"name"}));
            && after.rows == map[BUILDING := map["name" := VStr("South"), "city" := VStr("Delft")]]
            && BUILDING in Replay(after.log)
            && Replay(after.log)[BUILDING] == map["name" := JStr("South"), "city" := JStr("Breda")]
            && !Replays(after)
  {
    hide OneBuilding, AuditableNames, SnapshotOf, Saved, Clean, Written, Replay, AuditableState;
    var s := OneBuilding();
    OneBuildingReplays();
    SavedRows(s, BUILDING, IN_MEMORY, Some({"name"}));
    BuildingSnapshot(IN_MEMORY);
    UncleanCity(s);
    SaveReplays(s, BUILDING, IN_MEMORY, Some({"name"}));
    ReplayMatchesIffClean(s, BUILDING, IN_MEMORY, Some({"name"}));
  }

  lemma SavedRows(s: Store, key: Key, instance: Instance, updateFields: Option<set<string>>)
    requires key in s.rows && !SavesNothing(updateFields)
    ensures Saved(s, key, instance, updateFields).rows
            == s.rows[key := Written(s.rows[key], instance, updateFields)]
    ensures Saved(s, key, instance, updateFields).schema == s.schema
  {
    hide UpdateChanges, SnapshotOf, Written;
  }

  /** An instance loaded before the row was renamed is deleted: the DELETE entry shows the old name,
      not the replayed one. Deleting the row again logs a row that is no longer there. */
  lemma StaleDeleteIsLogged()
    ensures var renamed := Saved(OneBuilding(), BUILDING, IN_MEMORY, None);
            var deleted := Removed(renamed, BUILDING, STORED);
            && BUILDING in Replay(renamed.log) && "name" in Replay(renamed.log)[BUILDING]
            && Replay(renamed.log)[BUILDING]["name"] == JStr("South")
            && |deleted.log| == |renamed.log| + 1 && "name" in deleted.log[|renamed.log|].changes
            && deleted.log[|renamed.log|].changes["name"] == Change(JStr("North"), JNull)
            && !Coherent(deleted.log)
            && BUILDING !in Replay(deleted.log)
            && !Coherent(Removed(deleted, BUILDING, STORED).log)
  {
    hide OneBuilding, SnapshotOf, Saved, Clean, Replay, AuditableState, Coherent, UpToDate;
    var s := OneBuilding();
    OneBuildingReplays();
    BuildingSnapshot(STORED);
    BuildingSnapshot(IN_MEMORY);
    SaveReplays(s, BUILDING, IN_MEMORY, None);
    SavedRows(s, BUILDING, IN_MEMORY, None);
    ReplayMatchesIffClean(s, BUILDING, IN_MEMORY, None);
    assert Clean(s, BUILDING, IN_MEMORY, None) by { WholeRowIsClean(s); }
    var renamed := Saved(s, BUILDING, IN_MEMORY, None);
    StaleIsNotUpToDate(renamed);
    OneMoreEntry(renamed, DeleteOp(BUILDING, STORED));
    DeleteReplays(renamed, BUILDING, STORED);
    var deleted := Removed(renamed, BUILDING, STORED);
    GoneFromTheState(deleted);
    OneMoreEntry(deleted, DeleteOp(BUILDING, STORED));
  }

  lemma WholeRowIsClean(s: Store)
    ensures Clean(s, BUILDING, IN_MEMORY, None)
  {}

  lemma GoneFromTheState(s: Store)
    requires BUILDING !in s.rows
    ensures BUILDING !in AuditableState(s)
  {}

  lemma StaleIsNotUpToDate(s: Store)
    requires s.rows == map[BUILDING := IN_MEMORY] && s.Fields("Building") == BUILDING_FIELDS
    ensures !UpToDate(s, DeleteOp(BUILDING, STORED))
  {
    hide SnapshotOf;
    BuildingSnapshot(STORED);
    BuildingSnapshot(IN_MEMORY);
    assert s.Snap(BUILDING, STORED)["name"] != s.Snap(BUILDING, IN_MEMORY)["name"];
  }

  lemma UncleanCity(s: Store)
    requires s.rows == map[BUILDING := STORED] && s.Fields("Building") == BUILDING_FIELDS
    ensures !Clean(s, BUILDING, IN_MEMORY, Some({"name"}))
    ensures Written(STORED, IN_MEMORY, Some({"name"})) == map["name" := VStr("South"), "city" := VStr("Delft")]
  {
    hide AuditableNames;
    BuildingSnapshot(IN_MEMORY);
    assert "city" in AuditableNames(BUILDING_FIELDS);
  }

  /** No sensitive and no noisy field is ever named in the log. */
  ghost predicate Discreet(log: seq<Entry>) {
    forall e, name :: e in log && name in e.changes ==> !IsSensitive(name) && name !in NOISY_FIELDS
  }

  lemma NewEntryIsDiscreet(s: Store, op: Operation)
    ensures forall e, name :: e in Apply(s, op).log && e !in s.log && name in e.changes
              ==> name in AuditableNames(s.Fields(op.key.model))
  {}

  lemma AuditableNamesAreDiscreet(fields: seq<Field>, name: string)
    requires name in AuditableNames(fields)
    ensures !IsSensitive(name) && name !in NOISY_FIELDS
  {}

  lemma {:induction false} NothingSensitiveIsLogged(s: Store, ops: seq<Operation>)
    requires s.log == []
    ensures Discreet(ApplyAll(s, ops).log)
  {
    hide IsSensitive, Apply, AuditableNames;
    if ops != [] {
      var rest, op := ops[..|ops| - 1], ops[|ops| - 1];
      NothingSensitiveIsLogged(s, rest);
      var mid := ApplyAll(s, rest);
      NewEntryIsDiscreet(mid, op);
      forall e, name | e in Apply(mid, op).log && name in e.changes
        ensures !IsSensitive(name) && name !in NOISY_FIELDS
      {
        if e !in mid.log {
          AuditableNamesAreDiscreet(mid.Fields(op.key.model), name);
        }
      }
    }
  }

  // ----- The signal handlers -----

  /** The thread-local map is keyed by primary key, or by object identity before there is one. */
  datatype SnapKey = ByPk(key: Key) | ByIdentity(model: string, identity: nat)

  class AuditedDatabase {
    const schema: map<string, seq<Field>>
    var rows: map<Key, Instance>
    var log: seq<Entry>
    var snapshots: map<SnapKey, Option<Snapshot>>
    var nextPk: nat

    function Contents(): Store
      reads this
    {
      Store(schema, rows, log)
    }

    ghost predicate Valid()
      reads this
    {
      forall key :: key in rows ==> key.pk < nextPk
    }

    constructor (schema: map<string, seq<Field>>)
      ensures Valid() && Contents() == Store(schema, map[], [])
    {
      this.schema := schema;
      rows, log, snapshots, nextPk := map[], [], map[], 0;
    }

    /** `_on_pre_save`: remember the row as the database has it, or that there is none yet. */
    method OnPreSave(model: string, pk: Option<nat>, identity: nat)
      modifies this`snapshots
      ensures pk == None ==> snapshots == old(snapshots)[ByIdentity(model, identity) := None]
      ensures pk.Some? ==>
                var key := Key(model, pk.value);
                var found := if key in rows then Some(Contents().Snap(key, rows[key])) else None;
                snapshots == old(snapshots)[ByPk(key) := found]
    {
      if pk == None {
        snapshots := snapshots[ByIdentity(model, identity) := None];
        return;
      }
      var key := Key(model, pk.value);
      if key !in rows {
        snapshots := snapshots[ByPk(key) := None];
        return;
      }
      var snap := TakeSnapshot(Contents().Fields(model), rows[key]);
      snapshots := snapshots[ByPk(key) := Some(snap)];
    }

    /** `_on_post_save`: log a CREATE, or the fields whose serialized value changed, if any. */
    method OnPostSave(key: Key, identity: nat, instance: Instance, created: bool)
      modifies this`snapshots, this`log
      ensures snapshots == old(snapshots) - {if created then ByIdentity(key.model, identity) else ByPk(key)}
      ensures created ==> log == old(log) + [Entry(Create, key, CreateChanges(Contents().Snap(key, instance)))]
      ensures !created ==>
                var before := if ByPk(key) in old(snapshots) then old(snapshots)[ByPk(key)] else None;
                var after := Contents().Snap(key, instance);
                var changes := if before == None then map[] else UpdateChanges(before.value, after);
                log == if changes == map[] then old(log) else old(log) + [Entry(Update, key, changes)]
    {
      var after := TakeSnapshot(Contents().Fields(key.model), instance);
      if created {
        snapshots := snapshots - {ByIdentity(key.model, identity)};
        log := log + [Entry(Create, key, CreateChanges(after))];
        return;
      }
      var before := if ByPk(key) in snapshots then snapshots[ByPk(key)] else None;
      snapshots := snapshots - {ByPk(key)};
      var changes: Changes := map[];
      if before.Some? {
        changes := DiffSnapshots(before.value, after);
      }
      if changes == map[] {
        return;
      }
      log := log + [Entry(Update, key, changes)];
    }

    /** `compute_update_changes`: the loop over the fresh snapshot. */
    static method DiffSnapshots(before: Snapshot, after: Snapshot) returns (diff: Changes)
      ensures diff == UpdateChanges(before, after)
    {
      diff := map[];
      var names := after.Keys;
      while names != {}
        invariant names <= after.Keys
        invariant diff == map name | name in after && name !in names && Got(before, name) != after[name]
                              :: Change(Got(before, name), after[name])
        decreases names
      {
        var name :| name in names;
        if Got(before, name) != after[name] {
          diff := diff[name := Change(Got(before, name), after[name])];
        }
        names := names - {name};
      }
    }

    /** The write between the handlers: an insert of a new row, or an update. */
    method WriteRow(key: Key, instance: Instance, updateFields: Option<set<string>>)
      returns (written: bool, created: bool)
      requires Valid() && !SavesNothing(updateFields)
      modifies this`rows, this`nextPk
      ensures Valid()
      ensures written == !Refused(old(Contents()), key, updateFields) && created == (written && key !in old(rows))
      ensures rows == if !written then old(rows)
                      else if created then old(rows)[key := instance]
                      else old(rows)[key := Written(old(rows)[key], instance, updateFields)]
    {
      hide Written;
      created := key !in rows && updateFields == None;
      written := created || key in rows;
      if created {
        rows := rows[key := instance];
        nextPk := if nextPk <= key.pk then key.pk + 1 else nextPk;
      } else if written {
        rows := rows[key := Written(rows[key], instance, updateFields)];
      }
    }

    /** A write between the two handlers. An update leaves no snapshot behind. */
    method SaveThroughHandlers(key: Key, pk: Option<nat>, identity: nat, instance: Instance,
                               updateFields: Option<set<string>>)
      returns (ok: bool)
      requires Valid() && !SavesNothing(updateFields)
      requires if pk == None then key.pk == nextPk else key.pk == pk.value
      modifies this
      ensures Valid()
      ensures ok == !Refused(old(Contents()), key, updateFields)
      ensures Contents() == Saved(old(Contents()), key, instance, updateFields)
      ensures key in old(rows) ==> snapshots == old(snapshots) - {ByPk(key)}
    {
      hide SnapshotOf, UpdateChanges, CreateChanges, Written;
      OnPreSave(key.model, pk, identity);
      var created;
      ok, created := WriteRow(key, instance, updateFields);
      if ok {
        OnPostSave(key, identity, instance, created);
      }
    }

    /** A save: through both handlers, or through neither when `update_fields` is empty. Without a
        primary key the row gets the next one. An update of comparable values is logged exactly when an
        auditable field's value changed. */
    method Save(model: string, pk: Option<nat>, identity: nat, instance: Instance, updateFields: Option<set<string>>)
      returns (key: Key, ok: bool)
      requires Valid()
      modifies this
      ensures Valid()
      ensures key == Key(model, if pk == None then old(nextPk) else pk.value)
      ensures ok == !Refused(old(Contents()), key, updateFields)
      ensures Contents() == Saved(old(Contents()), key, instance, updateFields)
      ensures key in old(rows) && !SavesNothing(updateFields)
              && FieldsComparable(Contents().Fields(key.model), old(rows)[key], instance)
              ==> (log == old(log) <==> ChangedFields(Contents().Fields(key.model), old(rows)[key], instance) == {})
      ensures SavesNothing(updateFields) ==> snapshots == old(snapshots)
      ensures key in old(rows) && !SavesNothing(updateFields) ==> snapshots == old(snapshots) - {ByPk(key)}
    {
      key := Key(model, if pk == None then nextPk else pk.value);
      if updateFields == Some({}) {
        return key, true;
      }
      hide Saved, FieldsComparable, ChangedFields;
      if key in rows && FieldsComparable(Contents().Fields(model), rows[key], instance) {
        UpdateNamesTheChanges(Contents(), key, instance, updateFields);
      }
      ok := SaveThroughHandlers(key, pk, identity, instance, updateFields);
    }

    /** A delete, logged with a snapshot of the instance being deleted. */
    method DeleteRow(key: Key, instance: Instance)
      requires Valid()
      modifies this
      ensures Valid()
      ensures Contents() == Removed(old(Contents()), key, instance)
    {
      rows := rows - {key};
      var snap := TakeSnapshot(Contents().Fields(key.model), instance);
      log := log + [Entry(Delete, key, DeleteChanges(snap))];
    }
  }
}
