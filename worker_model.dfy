/**
 The worker record exchanged between the monitor and its workers, and a
 generic view of its fields (name, value) that the worker's command
 reconciliation iterates over.
 */
module WorkerModel {

  /** A clock reading. The model only stores and compares it. */
  type Instant = int

  /** The timestamp a record carries when none is given. */
  const DefaultTimestamp: Instant := 0

  /** One remote agent's identity, channel addresses and observed state. */
  datatype Worker = Worker(
    id: string,
    name: string,
    queueReg: string,
    queueCmd: string,
    queueStt: string,
    counter: int := 0,
    timestamp: Instant := DefaultTimestamp,
    active: bool := false)

  /** The names of the record's fields. */
  datatype Field = Id | Name | QueueReg | QueueCmd | QueueStt | Counter | Timestamp | Active

  /** The value held by one field, tagged with its kind. */
  datatype Value = Text(text: string) | Number(number: int) | Time(time: Instant) | Flag(flag: bool)

  /** Every field once, in declaration order. */
  const AllFields: seq<Field> := [Id, Name, QueueReg, QueueCmd, QueueStt, Counter, Timestamp, Active]

  /** Whether `v` has the kind that field `f` stores. */
  predicate Fits(f: Field, v: Value) {
    match f
    case Id | Name | QueueReg | QueueCmd | QueueStt => v.Text?
    case Counter => v.Number?
    case Timestamp => v.Time?
    case Active => v.Flag?
  }

  /** Reads one field of a record. */
  function Get(w: Worker, f: Field): (v: Value)
    ensures Fits(f, v)
  {
    match f
    case Id => Text(w.id)
    case Name => Text(w.name)
    case QueueReg => Text(w.queueReg)
    case QueueCmd => Text(w.queueCmd)
    case QueueStt => Text(w.queueStt)
    case Counter => Number(w.counter)
    case Timestamp => Time(w.timestamp)
    case Active => Flag(w.active)
  }

  /** Overwrites one field of a record with a value of the right kind. */
  function Set(w: Worker, f: Field, v: Value): (r: Worker)
    requires Fits(f, v)
    ensures Get(r, f) == v
    ensures forall g :: g != f ==> Get(r, g) == Get(w, g)
  {
    match f
    case Id => w.(id := v.text)
    case Name => w.(name := v.text)
    case QueueReg => w.(queueReg := v.text)
    case QueueCmd => w.(queueCmd := v.text)
    case QueueStt => w.(queueStt := v.text)
    case Counter => w.(counter := v.number)
    case Timestamp => w.(timestamp := v.time)
    case Active => w.(active := v.flag)
  }

  /** A record built without counter, timestamp or active takes their defaults. */
  lemma Defaults(id: string, name: string, queueReg: string, queueCmd: string, queueStt: string)
    ensures Worker(id, name, queueReg, queueCmd, queueStt).counter == 0
    ensures Worker(id, name, queueReg, queueCmd, queueStt).timestamp == DefaultTimestamp
    ensures !Worker(id, name, queueReg, queueCmd, queueStt).active
  {
  }

  /** `AllFields` lists each of the eight fields exactly once. */
  lemma AllFieldsExactlyOnce()
    ensures |AllFields| == 8
    ensures forall f: Field :: f in AllFields
    ensures forall i, j :: 0 <= i < j < |AllFields| ==> AllFields[i] != AllFields[j]
  {
    forall f: Field ensures f in AllFields {
      match f
      case Id => assert AllFields[0] == f;
      case Name => assert AllFields[1] == f;
      case QueueReg => assert AllFields[2] == f;
      case QueueCmd => assert AllFields[3] == f;
      case QueueStt => assert AllFields[4] == f;
      case Counter => assert AllFields[5] == f;
      case Timestamp => assert AllFields[6] == f;
      case Active => assert AllFields[7] == f;
    }
  }

  /** Two records are equal exactly when they agree on every field. */
  lemma FieldsDetermineWorker(a: Worker, b: Worker)
    ensures a == b <==> forall f :: Get(a, f) == Get(b, f)
  {
    if forall f :: Get(a, f) == Get(b, f) {
      assert Get(a, Id) == Get(b, Id);
      assert Get(a, Name) == Get(b, Name);
      assert Get(a, QueueReg) == Get(b, QueueReg);
      assert Get(a, QueueCmd) == Get(b, QueueCmd);
      assert Get(a, QueueStt) == Get(b, QueueStt);
      assert Get(a, Counter) == Get(b, Counter);
      assert Get(a, Timestamp) == Get(b, Timestamp);
      assert Get(a, Active) == Get(b, Active);
    }
  }

  /** A sequence with no element twice. */
  predicate Distinct(fs: seq<Field>) {
    forall i, j :: 0 <= i < j < |fs| ==> fs[i] != fs[j]
  }

  /** The fields of `fs`, in their order, on which `a` and `b` disagree. */
  function DiffOver(a: Worker, b: Worker, fs: seq<Field>): (d: seq<Field>) {
    if fs == [] then []
    else (if Get(a, fs[0]) != Get(b, fs[0]) then [fs[0]] else []) + DiffOver(a, b, fs[1..])
  }

  /** `DiffOver` reports exactly the fields of `fs` on which the records disagree, each once. */
  lemma {:induction false} DiffOverMembers(a: Worker, b: Worker, fs: seq<Field>)
    ensures forall f :: f in DiffOver(a, b, fs) <==> f in fs && Get(a, f) != Get(b, f)
    ensures |DiffOver(a, b, fs)| <= |fs|
    ensures Distinct(fs) ==> Distinct(DiffOver(a, b, fs))
  {
    if fs != [] {
      DiffOverMembers(a, b, fs[1..]);
      assert forall f :: f in fs <==> f == fs[0] || f in fs[1..];
      assert Distinct(fs) ==> Distinct(fs[1..]) && fs[0] !in fs[1..];
    }
  }

  /** Scanning `fs` from position `i` reports `fs[i]` first if it differs, then the rest. */
  lemma DiffOverStep(a: Worker, b: Worker, fs: seq<Field>, i: nat)
    requires i < |fs|
    ensures DiffOver(a, b, fs[i..]) ==
      (if Get(a, fs[i]) != Get(b, fs[i]) then [fs[i]] else []) + DiffOver(a, b, fs[i + 1..])
  {
  }

  /** The fields, in declaration order, on which `a` and `b` disagree. */
  function Diff(a: Worker, b: Worker): (d: seq<Field>) {
    DiffOver(a, b, AllFields)
  }

  /** Two records are equal exactly when no field differs. */
  lemma DiffEmptyIffEqual(a: Worker, b: Worker)
    ensures Diff(a, b) == [] <==> a == b
  {
    FieldsDetermineWorker(a, b);
    AllFieldsExactlyOnce();
    DiffOverMembers(a, b, AllFields);
    if Diff(a, b) != [] {
      assert Diff(a, b)[0] in Diff(a, b);
    }
  }

  /** When two records differ in exactly one field `f`, only `f` is reported. */
  lemma {:induction false} DiffSingleField(a: Worker, b: Worker, f: Field, fs: seq<Field>)
    requires Get(a, f) != Get(b, f)
    requires forall g :: g != f ==> Get(a, g) == Get(b, g)
    requires Distinct(fs)
    ensures DiffOver(a, b, fs) == if f in fs then [f] else []
  {
    if fs != [] {
      assert Distinct(fs[1..]);
      DiffSingleField(a, b, f, fs[1..]);
      assert forall g :: g in fs <==> g == fs[0] || g in fs[1..];
      assert fs[0] == f ==> f !in fs[1..];
    }
  }

  /** Toggling `active` changes only the `active` field. */
  lemma DiffOfToggle(w: Worker)
    ensures Diff(w, w.(active := !w.active)) == [Active]
  {
    var v := w.(active := !w.active);
    assert forall g :: g != Active ==> Get(w, g) == Get(v, g);
    AllFieldsExactlyOnce();
    DiffSingleField(w, v, Active, AllFields);
  }
}
