/** The encrypted template table, the cached master key, enrollment commits and key rotation. */
module Templates {
  import opened Wrappers
  import opened Envelope

  // ---------------------------------------------------------------- embeddings as bytes

  /** A float32 by its four bytes; the arithmetic on embeddings is not part of this model. */
  datatype Float32 = Float32(b0: byte, b1: byte, b2: byte, b3: byte)
  type Vector = seq<Float32>

  function ToBytes(v: Vector): (raw: Bytes)
    ensures |raw| == 4 * |v|
  {
    if v == [] then [] else [v[0].b0, v[0].b1, v[0].b2, v[0].b3] + ToBytes(v[1..])
  }

  /** The four bytes of each float, one after the other. */
  lemma {:induction false} BytesInOrder(v: Vector, i: nat)
    requires i < |v|
    ensures ToBytes(v)[4 * i..4 * i + 4] == [v[i].b0, v[i].b1, v[i].b2, v[i].b3]
  {
    if i > 0 {
      BytesInOrder(v[1..], i - 1);
      var raw, rest := ToBytes(v), ToBytes(v[1..]);
      assert raw[4 * i..4 * i + 4] == rest[4 * (i - 1)..4 * (i - 1) + 4];
    }
  }

  /** None where the length is not a whole number of floats. */
  function FromBytes(raw: Bytes): Option<Vector>
    decreases |raw|
  {
    if raw == [] then Some([])
    else if |raw| < 4 then None
    else
      var rest := FromBytes(raw[4..]);
      if rest.None? then None else Some([Float32(raw[0], raw[1], raw[2], raw[3])] + rest.value)
  }

  lemma {:induction false} VectorRoundTrip(v: Vector)
    ensures FromBytes(ToBytes(v)) == Some(v)
  {
    if v != [] {
      VectorRoundTrip(v[1..]);
      var raw := ToBytes(v);
      assert raw[4..] == ToBytes(v[1..]);
      assert Float32(raw[0], raw[1], raw[2], raw[3]) == v[0];
      assert [v[0]] + v[1..] == v;
    }
  }

  // ---------------------------------------------------------------- the table

  datatype Row = Row(templateId: string, name: string, blob: Bytes, createdAt: int)

  /** Rows in insertion order, which is the order of their ids. */
  type Table = seq<Row>

  ghost predicate UniqueIds(rows: Table) {
    forall i, j :: 0 <= i < j < |rows| ==> rows[i].templateId != rows[j].templateId
  }

  function Ids(rows: Table): set<string> {
    set row | row in rows :: row.templateId
  }

  /** The row of `ORDER BY created_at DESC, id DESC LIMIT 1`. */
  ghost predicate IsLatest(rows: Table, k: nat) {
    k < |rows| && forall j :: 0 <= j < |rows| ==>
                               rows[j].createdAt < rows[k].createdAt
                                 || (rows[j].createdAt == rows[k].createdAt && j <= k)
  }

  function Latest(rows: Table): (k: nat)
    requires rows != []
    ensures IsLatest(rows, k)
  {
    if |rows| == 1 then 0
    else
      var rest := Latest(rows[..|rows| - 1]);
      if rows[|rows| - 1].createdAt >= rows[rest].createdAt then |rows| - 1 else rest
  }

  datatype Loaded = NoTemplate | Template(templateId: string, embedding: Vector) | Unreadable

  function ReadRow(c: Cipher, key: Bytes, row: Row): Loaded {
    var raw := Unwrap(c, TemplateBlob, key, row.templateId, row.blob);
    if raw.None? then Unreadable
    else
      var v := FromBytes(raw.value);
      if v.None? then Unreadable else Template(row.templateId, v.value)
  }

  function LoadLatest(c: Cipher, key: Bytes, rows: Table): Loaded {
    if rows == [] then NoTemplate else ReadRow(c, key, rows[Latest(rows)])
  }

  function NewRow(c: Cipher, key: Bytes, id: string, name: string, v: Vector, draw: Draw, now: int): Row {
    Row(id, name, Wrap(c, TemplateBlob, key, id, draw, ToBytes(v)), now)
  }

  lemma NewRowReads(c: Cipher, key: Bytes, id: string, name: string, v: Vector, draw: Draw, now: int)
    requires Lawful(c)
    ensures ReadRow(c, key, NewRow(c, key, id, name, v, draw, now)) == Template(id, v)
  {
    UnwrapWrap(c, TemplateBlob, key, id, draw, ToBytes(v));
    VectorRoundTrip(v);
    hide Wrap, Unwrap, FromBytes, ToBytes;
  }

  function Without(rows: Table, id: string): Table {
    if rows == [] then []
    else (if rows[0].templateId == id then [] else [rows[0]]) + Without(rows[1..], id)
  }

  // ---------------------------------------------------------------- rewrapping

  predicate Opens(c: Cipher, key: Bytes, row: Row) {
    Unwrap(c, TemplateBlob, key, row.templateId, row.blob).Some?
  }

  function Rewrap(c: Cipher, key: Bytes, newKey: Bytes, row: Row, draw: Draw): Row
    requires Opens(c, key, row)
  {
    row.(blob := Wrap(c, TemplateBlob, newKey, row.templateId, draw,
          Unwrap(c, TemplateBlob, key, row.templateId, row.blob).value))
  }

  /** All rows rewrapped, the `i`-th with the `i`-th draw. */
  function Rewrapped(c: Cipher, key: Bytes, newKey: Bytes, rows: Table, draws: nat -> Draw): (rows': Table)
    requires forall row :: row in rows ==> Opens(c, key, row)
    ensures |rows'| == |rows|
    ensures forall i :: 0 <= i < |rows| ==> rows'[i] == Rewrap(c, key, newKey, rows[i], draws(i))
    ensures forall i :: 0 <= i < |rows| ==>
              && rows'[i].templateId == rows[i].templateId && rows'[i].name == rows[i].name
              && rows'[i].createdAt == rows[i].createdAt
  {
    seq(|rows|, i requires 0 <= i < |rows| => Rewrap(c, key, newKey, rows[i], draws(i)))
  }

  /** A rewrapped row holds what it held, under the new key. */
  lemma RewrapKeepsContent(c: Cipher, key: Bytes, newKey: Bytes, row: Row, draw: Draw)
    requires Lawful(c) && Opens(c, key, row)
    ensures ReadRow(c, newKey, Rewrap(c, key, newKey, row, draw)) == ReadRow(c, key, row)
  {
    UnwrapWrap(c, TemplateBlob, newKey, row.templateId, draw,
      Unwrap(c, TemplateBlob, key, row.templateId, row.blob).value);
    hide Wrap, Unwrap;
  }

  /** ... and nothing under any other. */
  lemma RewrapNeedsNewKey(c: Cipher, key: Bytes, newKey: Bytes, row: Row, draw: Draw, other: Bytes)
    requires Lawful(c) && Binding(c) && Opens(c, key, row) && other != newKey
    ensures ReadRow(c, other, Rewrap(c, key, newKey, row, draw)) == Unreadable
  {
    WrapBindsKeyAndRow(c, TemplateBlob, newKey, row.templateId, draw,
                       Unwrap(c, TemplateBlob, key, row.templateId, row.blob).value, other, row.templateId);
    hide Wrap, Unwrap;
  }

  lemma LatestIsUnique(rows: Table, j: nat, k: nat)
    requires IsLatest(rows, j) && IsLatest(rows, k)
    ensures j == k
  {
    assert rows[j].createdAt == rows[k].createdAt;
  }

  /** A row inserted into any table is the template loaded from then on exactly if no other row is newer;
      otherwise the template stays what it was. */
  lemma InsertedIsLoadedIff(c: Cipher, s: Store, id: string, name: string, v: Vector, draw: Draw, now: int)
    requires Lawful(c) && id !in Ids(s.rows)
    ensures var s' := Insert(c, s, id, name, v, draw, now);
            && |s'.rows| == |s.rows| + 1 && s'.rows[..|s.rows|] == s.rows && s'.key == s.key
            && s'.rows[|s.rows|].templateId == id && s'.rows[|s.rows|].name == name
            && s'.rows[|s.rows|].createdAt == now
            && Load(c, s') ==
                 if forall row :: row in s.rows ==> row.createdAt <= now then Template(id, v) else Load(c, s)
  {
    NewRowReads(c, s.key, id, name, v, draw, now);
    var row := NewRow(c, s.key, id, name, v, draw, now);
    assert row.createdAt == now && row.templateId == id && row.name == name;
    hide ReadRow, NewRow;
    var rows := s.rows + [row];
    if forall old' :: old' in s.rows ==> old'.createdAt <= now {
      assert forall j :: 0 <= j < |s.rows| ==> rows[j] in s.rows;
      LatestIsUnique(rows, Latest(rows), |s.rows|);
    } else {
      var newer :| newer in s.rows && newer.createdAt > now;
      var j :| 0 <= j < |s.rows| && s.rows[j] == newer;
      LatestIsUnique(rows, Latest(rows), Latest(s.rows));
    }
  }

  lemma RewrappedLoadsTheSame(c: Cipher, key: Bytes, newKey: Bytes, rows: Table, draws: nat -> Draw)
    requires Lawful(c) && forall row :: row in rows ==> Opens(c, key, row)
    ensures LoadLatest(c, newKey, Rewrapped(c, key, newKey, rows, draws)) == LoadLatest(c, key, rows)
  {
    if rows != [] {
      var rows' := Rewrapped(c, key, newKey, rows, draws);
      LatestIsUnique(rows', Latest(rows'), Latest(rows));
      RewrapKeepsContent(c, key, newKey, rows[Latest(rows)], draws(Latest(rows)));
    }
  }

  // ---------------------------------------------------------------- where the master key is kept

  datatype EnvironmentKey = Unset | Malformed | Given(key: Bytes)

  /** The OS keychain's entry, the environment variable, and the fallback file. */
  datatype KeyPlaces = KeyPlaces(keychain: Option<Bytes>, environment: EnvironmentKey, file: Option<Bytes>)

  /** Writing the file may raise before anything changed, after the old content is gone, or, when setting
      its mode fails, with the new content in place. */
  datatype FileWrite = Completed | RaisedBefore | RaisedEmptied | RaisedAfter {
    function Content(before: Option<Bytes>, key: Bytes): Option<Bytes> {
      match this
      case RaisedBefore => before
      case RaisedEmptied => None
      case _ => Some(key)
    }
  }

  /** What the machine answers: whether the keychain does, whether production forbids doing without it, how
      a write of the file ends, and the key that would be drawn if there is none. */
  datatype Machine = Machine(keychainAvailable: bool, guarded: bool, fileWrite: FileWrite, generated: Bytes) {
    /** Can a key be stored without an exception? */
    predicate Keeps() { keychainAvailable || (!guarded && fileWrite.Completed?) }
  }

  datatype Lookup = Found(key: Bytes) | Nothing | Refused

  /** The first place that has a key, in the order in which a new process looks; a missing keychain under
      the guard and a malformed environment variable are exceptions. */
  function FindKey(p: KeyPlaces, m: Machine): Lookup {
    if m.keychainAvailable && p.keychain.Some? then Found(p.keychain.value)
    else if !m.keychainAvailable && m.guarded then Refused
    else match p.environment
      case Given(key) => Found(key)
      case Malformed => Refused
      case Unset => if p.file.Some? then Found(p.file.value) else Nothing
  }

  /** The places after storing a key, whether or not that raised. */
  function KeepKey(p: KeyPlaces, key: Bytes, m: Machine): KeyPlaces {
    if m.keychainAvailable then p.(keychain := Some(key))
    else if m.guarded then p
    else p.(file := m.fileWrite.Content(p.file, key))
  }

  /** A key new to all places is what a later process finds after an attempt to store it exactly if it went
      to the keychain and that answers again, or the file ended up holding it, even where the attempt
      raised, and nothing that is looked at before the file has a key or refuses. */
  lemma StoredKeyIsFoundIff(p: KeyPlaces, key: Bytes, m: Machine, later: Machine)
    requires p.keychain != Some(key) && p.environment != Given(key) && p.file != Some(key)
    ensures FindKey(KeepKey(p, key, m), later) == Found(key) <==>
              if m.keychainAvailable then later.keychainAvailable
              else
                && !m.guarded && (m.fileWrite.Completed? || m.fileWrite.RaisedAfter?)
                && p.environment == Unset
                && if later.keychainAvailable then p.keychain.None? else !later.guarded
  {
  }

  /** The key in use; None is an exception. */
  function KeyInUse(cached: Option<Bytes>, p: KeyPlaces, m: Machine): Option<Bytes> {
    if cached.Some? then cached
    else match FindKey(p, m)
      case Found(key) => Some(key)
      case Refused => None
      case Nothing => if m.Keeps() then Some(m.generated) else None
  }

  // ---------------------------------------------------------------- operations on the whole store

  /** The table and the master key in use. */
  datatype Store = Store(rows: Table, key: Bytes)

  function Load(c: Cipher, s: Store): Loaded { LoadLatest(c, s.key, s.rows) }

  /** Inserting fails on a template id already in the table. */
  function Insert(c: Cipher, s: Store, id: string, name: string, v: Vector, draw: Draw, now: int): Store {
    if id in Ids(s.rows) then s else s.(rows := s.rows + [NewRow(c, s.key, id, name, v, draw, now)])
  }

  /** Does a rewrap commit? Every blob must open, and the transaction must go through. */
  ghost predicate RewrapCommits(c: Cipher, s: Store, transactionOk: bool) {
    transactionOk && forall row :: row in s.rows ==> Opens(c, s.key, row)
  }

  /** A rotation: rewrap in one transaction, then keep the new key, then switch to it. */
  ghost function Rotate(c: Cipher, s: Store, newKey: Bytes, draws: nat -> Draw, transactionOk: bool,
                          keyStored: bool): Store {
    if !RewrapCommits(c, s, transactionOk) then s
    else Store(Rewrapped(c, s.key, newKey, s.rows, draws), if keyStored then newKey else s.key)
  }

  /** A rewrap that fails, or whose key is stored, loses no row: each one reads as it did, under the key in use. */
  lemma RotationKeepsEveryRow(c: Cipher, s: Store, newKey: Bytes, draws: nat -> Draw, transactionOk: bool,
                              keyStored: bool)
    requires Lawful(c) && (RewrapCommits(c, s, transactionOk) ==> keyStored)
    ensures var s' := Rotate(c, s, newKey, draws, transactionOk, keyStored);
            && |s'.rows| == |s.rows|
            && forall i :: 0 <= i < |s.rows| ==> ReadRow(c, s'.key, s'.rows[i]) == ReadRow(c, s.key, s.rows[i])
  {
    if RewrapCommits(c, s, transactionOk) {
      forall i | 0 <= i < |s.rows|
        ensures ReadRow(c, newKey, Rewrap(c, s.key, newKey, s.rows[i], draws(i))) == ReadRow(c, s.key, s.rows[i])
      {
        RewrapKeepsContent(c, s.key, newKey, s.rows[i], draws(i));
      }
    }
  }

  /** A rotation attempt keeps the template readable exactly when the rewrap failed, the new key was
      stored, or there was nothing to read; the endpoint's promise that any failure leaves the old key
      working does not cover a key store that fails after the rewrap committed. */
  lemma RotationKeepsTemplateIff(c: Cipher, s: Store, newKey: Bytes, draws: nat -> Draw, transactionOk: bool,
                                 keyStored: bool)
    requires Lawful(c) && Binding(c) && newKey != s.key && Load(c, s) != Unreadable
    ensures Load(c, Rotate(c, s, newKey, draws, transactionOk, keyStored)) == Load(c, s) <==>
              !RewrapCommits(c, s, transactionOk) || keyStored || s.rows == []
  {
    if RewrapCommits(c, s, transactionOk) {
      RewrappedLoadsTheSame(c, s.key, newKey, s.rows, draws);
      if !keyStored && s.rows != [] {
        var rows' := Rewrapped(c, s.key, newKey, s.rows, draws);
        LatestIsUnique(rows', Latest(rows'), Latest(s.rows));
        RewrapNeedsNewKey(c, s.key, newKey, s.rows[Latest(s.rows)], draws(Latest(s.rows)), s.key);
      }
    }
  }

  /** The failing side is reached with any single enrolled template. */
  lemma UnstoredKeyLosesTheTemplate(c: Cipher, key: Bytes, id: string, name: string, v: Vector, draw: Draw, now: int,
                                    newKey: Bytes, draws: nat -> Draw)
    requires Lawful(c) && Binding(c) && newKey != key
    ensures var s := Store([NewRow(c, key, id, name, v, draw, now)], key);
            && Load(c, s) == Template(id, v)
            && Load(c, Rotate(c, s, newKey, draws, true, false)) == Unreadable
  {
    var row := NewRow(c, key, id, name, v, draw, now);
    NewRowReads(c, key, id, name, v, draw, now);
    RewrapNeedsNewKey(c, key, newKey, row, draws(0), key);
    hide NewRow, Wrap, Unwrap;
    assert Latest([row]) == 0;
    assert Rewrapped(c, key, newKey, [row], draws) == [Rewrap(c, key, newKey, row, draws(0))];
  }

  // ---------------------------------------------------------------- the store refines one optional template

  datatype Op =
    | Commit(id: string, name: string, embedding: Vector, draw: Draw, now: int, storeOk: bool)
    | DeleteAll
    | DeleteOne(gone: string)
    | RotateKey(newKey: Bytes, draws: nat -> Draw, transactionOk: bool)

  /** An enrollment commit empties the table first; should storing the new template then fail, the old
      one is gone all the same. Rotations store their key. */
  ghost function Apply(c: Cipher, s: Store, op: Op): Store {
    match op
    case Commit(id, name, v, draw, now, storeOk) =>
      var emptied := s.(rows := []);
      if storeOk then Insert(c, emptied, id, name, v, draw, now) else emptied
    case DeleteAll => s.(rows := [])
    case DeleteOne(gone) => s.(rows := Without(s.rows, gone))
    case RotateKey(newKey, draws, transactionOk) => Rotate(c, s, newKey, draws, transactionOk, true)
  }

  function Enrolled(enrolled: Loaded, op: Op): Loaded {
    match op
    case Commit(id, _, v, _, _, storeOk) => if storeOk then Template(id, v) else NoTemplate
    case DeleteAll => NoTemplate
    case DeleteOne(gone) => if enrolled.Template? && enrolled.templateId == gone then NoTemplate else enrolled
    case RotateKey(_, _, _) => enrolled
  }

  ghost function AfterOps(c: Cipher, s: Store, ops: seq<Op>): Store {
    if ops == [] then s else Apply(c, AfterOps(c, s, ops[..|ops| - 1]), ops[|ops| - 1])
  }

  function EnrolledAfter(enrolled: Loaded, ops: seq<Op>): Loaded {
    if ops == [] then enrolled else Enrolled(EnrolledAfter(enrolled, ops[..|ops| - 1]), ops[|ops| - 1])
  }

  /** At most one template, and readable under the key in use. */
  ghost predicate Single(c: Cipher, s: Store) {
    |s.rows| <= 1 && Load(c, s) != Unreadable
  }

  lemma OpRefines(c: Cipher, s: Store, op: Op)
    requires Lawful(c) && Single(c, s)
    ensures Single(c, Apply(c, s, op)) && Load(c, Apply(c, s, op)) == Enrolled(Load(c, s), op)
  {
    hide Unwrap, Wrap, NewRow;
    match op {
      case Commit(id, name, v, draw, now, _) =>
        NewRowReads(c, s.key, id, name, v, draw, now);
      case DeleteAll =>
      case DeleteOne(gone) =>
        if s.rows != [] {
          assert Without(s.rows, gone) == (if s.rows[0].templateId == gone then [] else s.rows) by {
            assert s.rows[1..] == [] && [s.rows[0]] == s.rows;
          }
        }
      case RotateKey(newKey, draws, transactionOk) =>
        if RewrapCommits(c, s, transactionOk) {
          RewrappedLoadsTheSame(c, s.key, newKey, s.rows, draws);
        }
    }
  }

  /** Over any interleaving of commits, deletions and rotations, loading the latest template returns
      exactly the last committed one. */
  lemma {:induction false} StoreRefinesOneTemplate(c: Cipher, s: Store, ops: seq<Op>)
    requires Lawful(c) && Single(c, s)
    ensures Single(c, AfterOps(c, s, ops))
    ensures Load(c, AfterOps(c, s, ops)) == EnrolledAfter(Load(c, s), ops)
  {
    hide Load, Apply;
    if ops != [] {
      StoreRefinesOneTemplate(c, s, ops[..|ops| - 1]);
      OpRefines(c, AfterOps(c, s, ops[..|ops| - 1]), ops[|ops| - 1]);
    }
  }
}
