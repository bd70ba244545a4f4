/** The reference-deduplicating variable set (include/util/variable_set.h).

    A `VariableSet` keeps two tables: `variables`, from a descriptor index
    to the shared object it names, and `reverseMap`, from an object's
    identity to its descriptor index and a weak reference. A shared object
    is identified by its address (`Addr`); a null `shared_ptr` is `None`.
    The table operations are pure functions over `Tables`; the class
    methods are proved against them. */
module Variables {
  import opened Wrappers
  import opened StreamCodec
  import opened StreamIO

  /** The identity of a shared object (the address behind a `shared_ptr`). */
  type Addr = nat

  const MaxIndex: U64 := 0xFFFF_FFFF_FFFF_FFFF

  /** `Descriptor<T>`: a 64-bit descriptor index; index 0 is the null descriptor. */
  datatype Descriptor = Descriptor(index: U64)
  {
    /** `operator!` as written: true for every descriptor EXCEPT the null one. */
    predicate Not()
    {
      index != 0
    }

    /** `operator bool` as written: true only for the null descriptor. */
    predicate AsBool()
    {
      index == 0
    }
  }

  /** `Descriptor::null()`. */
  const NullDescriptor := Descriptor(0)

  /** A `reverseMap` entry: the descriptor index and whether the weak
      reference to the object is still live. */
  datatype RevEntry = RevEntry(index: U64, live: bool)

  datatype Tables = Tables(variables: map<U64, Addr>, reverse: map<Addr, RevEntry>)

  /** Every reverse entry points at a descriptor that names that very object. */
  predicate Consistent(t: Tables)
  {
    forall a :: a in t.reverse ==> t.reverse[a].index in t.variables && t.variables[t.reverse[a].index] == a
  }

  /** No reverse entry has expired. */
  predicate AllLive(t: Tables)
  {
    forall a :: a in t.reverse ==> t.reverse[a].live
  }

  // ---------------------------------------------------------------------------
  // The descriptor counter (variable_set.h:19-23)

  /** `++nextIndex` on the 64-bit counter, which wraps to 0 after its maximum. */
  function NextIndex(n: U64): (r: U64)
    ensures n < MaxIndex ==> r == n + 1
    ensures r == 0 <==> n == MaxIndex
  {
    if n == MaxIndex then 0 else n + 1
  }

  /** The static counter behind `makeIndex`. */
  class IndexSource {
    var last: U64

    constructor ()
      ensures last == 0
    {
      last := 0;
    }

    /** `makeIndex`: the counter, pre-incremented. */
    method MakeIndex() returns (i: U64)
      modifies this
      ensures i == last == NextIndex(old(last))
      ensures old(last) < MaxIndex ==> i == old(last) + 1 && i >= 1
    {
      last := NextIndex(last);
      i := last;
    }
  }

  /** Indices handed out from a counter at `last` up to `last'` never
      repeat and are never the null descriptor while the counter has not
      wrapped around. */
  lemma {:induction false} MakeIndexStrictlyIncreasing(first: U64, k: nat)
    requires first + k <= MaxIndex
    ensures Iterate(first, k) == first + k
    ensures k > 0 ==> Iterate(first, k) >= 1
    decreases k
  {
    if k > 0 {
      MakeIndexStrictlyIncreasing(first, k - 1);
    }
  }

  /** The counter after `k` calls of `makeIndex`. */
  function Iterate(first: U64, k: nat): U64
    decreases k
  {
    if k == 0 then first else NextIndex(Iterate(first, k - 1))
  }

  // ---------------------------------------------------------------------------
  // The table operations (variable_set.h:84-144)

  /** `get`: the object a descriptor names, or null. */
  function GetEntry(t: Tables, d: Descriptor): Option<Addr>
  {
    if d.index in t.variables then Some(t.variables[d.index]) else None
  }

  /** `set`: drop the reverse entry of the object `d` named before; then,
      for null, erase `d`; otherwise make `d` name `v` and point `v`'s
      reverse entry at `d`. The flag says whether `d` had an entry. */
  function SetEntry(t: Tables, d: Descriptor, v: Option<Addr>): (r: (Tables, bool))
    ensures r.1 <==> d.index in t.variables
    ensures GetEntry(r.0, d) == v
    ensures forall k :: k != d.index ==> (k in r.0.variables <==> k in t.variables)
    ensures forall k :: k != d.index && k in t.variables ==> r.0.variables[k] == t.variables[k]
    ensures GetEntry(t, d).Some? && GetEntry(t, d) != v ==> GetEntry(t, d).value !in r.0.reverse
    ensures v.Some? ==> FindEntry(r.0, v).1 == d
    ensures Consistent(t) ==> Consistent(r.0)
    ensures AllLive(t) ==> AllLive(r.0)
  {
    var reverse := match GetEntry(t, d)
      case Some(previous) => t.reverse - {previous}
      case None => t.reverse;
    match v
    case None =>
      (Tables(t.variables - {d.index}, reverse), d.index in t.variables)
    case Some(a) =>
      (Tables(t.variables[d.index := a], reverse[a := RevEntry(d.index, true)]), d.index in t.variables)
  }

  /** `find`: the descriptor of a known, live object; the null descriptor
      otherwise, an expired entry being erased on the way. */
  function FindEntry(t: Tables, v: Option<Addr>): (r: (Tables, Descriptor))
    ensures r.0.variables == t.variables
    ensures Consistent(t) && r.1 != NullDescriptor ==> GetEntry(t, r.1) == v
    ensures (v.None? || v.value !in t.reverse || !t.reverse[v.value].live) ==> r.1 == NullDescriptor
    ensures v.Some? && v.value in t.reverse && !t.reverse[v.value].live ==> r.0.reverse == t.reverse - {v.value}
    ensures !(v.Some? && v.value in t.reverse && !t.reverse[v.value].live) ==> r.0.reverse == t.reverse
    ensures Consistent(t) ==> Consistent(r.0)
    ensures AllLive(t) ==> r.0 == t
  {
    match v
    case None => (t, NullDescriptor)
    case Some(a) =>
      if a !in t.reverse then (t, NullDescriptor)
      else if !t.reverse[a].live then (Tables(t.variables, t.reverse - {a}), NullDescriptor)
      else (t, Descriptor(t.reverse[a].index))
  }

  /** What `findOrMake` returns and leaves behind; `usedFresh` says whether
      it took a new index from the counter. */
  datatype Made = Made(tables: Tables, descriptor: Descriptor, known: bool, usedFresh: bool)

  /** `findOrMake` when `makeIndex` would hand out `newIndex`: an object with a
      reverse entry keeps its descriptor (the weak reference is renewed);
      any other value is `set` under a new descriptor. */
  function FindOrMakeEntry(t: Tables, v: Option<Addr>, newIndex: U64): (r: Made)
    ensures v.Some? && v.value in t.reverse ==>
              r.known && !r.usedFresh && r.descriptor == Descriptor(t.reverse[v.value].index) &&
              r.tables.variables == t.variables && r.tables.reverse.Keys == t.reverse.Keys
    ensures !(v.Some? && v.value in t.reverse) ==>
              r.usedFresh && r.descriptor == Descriptor(newIndex) &&
              (r.tables, r.known) == SetEntry(t, Descriptor(newIndex), v)
    ensures v.Some? ==> FindEntry(r.tables, v).1 == r.descriptor
    ensures Consistent(t) ==> Consistent(r.tables)
    ensures Consistent(t) && v.Some? ==> GetEntry(r.tables, r.descriptor) == v
    ensures AllLive(t) ==> AllLive(r.tables)
    ensures (forall k :: k in t.variables ==> k < newIndex) ==> (r.known <==> v.Some? && v.value in t.reverse)
  {
    if v.Some? && v.value in t.reverse then
      var e := t.reverse[v.value];
      Made(Tables(t.variables, t.reverse[v.value := RevEntry(e.index, true)]), Descriptor(e.index), true, false)
    else
      var s := SetEntry(t, Descriptor(newIndex), v);
      Made(s.0, Descriptor(newIndex), s.1, true)
  }

  /** `VariableSet`: the two tables, updated in place. */
  class VariableSet {
    var variables: map<U64, Addr>
    var reverseMap: map<Addr, RevEntry>

    function State(): Tables
      reads this
    {
      Tables(variables, reverseMap)
    }

    constructor ()
      ensures State() == Tables(map[], map[])
    {
      variables := map[];
      reverseMap := map[];
    }

    /** `get`. */
    function Get(d: Descriptor): Option<Addr>
      reads this
    {
      GetEntry(State(), d)
    }

    /** `set`. */
    method Set(d: Descriptor, v: Option<Addr>) returns (existed: bool)
      modifies this
      ensures (State(), existed) == SetEntry(old(State()), d, v)
    {
      match Get(d) {
        case Some(a) => reverseMap := reverseMap - {a};
        case None =>
      }
      existed := d.index in variables;
      match v {
        case None =>
          variables := variables - {d.index};
        case Some(a) =>
          variables := variables[d.index := a];
          reverseMap := reverseMap[a := RevEntry(d.index, true)];
      }
    }

    /** `find`. */
    method Find(v: Option<Addr>) returns (d: Descriptor)
      modifies this
      ensures (State(), d) == FindEntry(old(State()), v)
    {
      if v.None? || v.value !in reverseMap {
        return NullDescriptor;
      }
      if !reverseMap[v.value].live {
        reverseMap := reverseMap - {v.value};
        return NullDescriptor;
      }
      d := Descriptor(reverseMap[v.value].index);
    }

    /** `findOrMake`: the descriptor and whether the object was already known. */
    method FindOrMake(v: Option<Addr>, counter: IndexSource) returns (d: Descriptor, known: bool)
      modifies this, counter
      ensures var m := FindOrMakeEntry(old(State()), v, NextIndex(old(counter.last)));
              State() == m.tables && d == m.descriptor && known == m.known &&
              counter.last == if m.usedFresh then NextIndex(old(counter.last)) else old(counter.last)
    {
      if v.None? || v.value !in reverseMap {
        var index := counter.MakeIndex();
        d := Descriptor(index);
        known := Set(d, v);
        return;
      }
      var e := reverseMap[v.value];
      reverseMap := reverseMap[v.value := RevEntry(e.index, true)];
      d := Descriptor(e.index);
      known := true;
    }
  }

  // ---------------------------------------------------------------------------
  // Descriptor serialisation (variable_set.h:70-77)

  method WriteDescriptor(writer: Writer, d: Descriptor)
    modifies writer
    ensures writer.bytes == old(writer.bytes) + EncodeU64(d.index)
  {
    writer.WriteU64(d.index);
  }

  method ReadDescriptor(reader: MemoryReader) returns (r: Result<Descriptor, IOError>)
    requires reader.Valid()
    modifies reader
    ensures reader.Valid()
    ensures var p := DecodeU64(reader.Input(), old(reader.offset));
            reader.offset == p.next &&
            r == if p.result.Success? then Success(Descriptor(p.result.value)) else Failure(p.result.error)
  {
    var index := reader.ReadU64();
    r := if index.Success? then Success(Descriptor(index.value)) else Failure(index.error);
  }

  /** A descriptor written then read back is the same descriptor. */
  lemma DescriptorRoundTrip(s: seq<Byte>, i: nat, d: Descriptor)
    requires i + 8 <= |s| && s[i..i + 8] == EncodeU64(d.index)
    ensures DecodeU64(s, i) == Parse(Success(d.index), i + 8)
  {
    DecodeU64RoundTrip(s, i, d.index);
  }

  // ---------------------------------------------------------------------------
  // The reference protocol: the free `write` and `read` templates
  // (variable_set.h:147-178)

  /** The bytes `write` emits for a non-null object under descriptor `d`:
      the descriptor, then a flag that says a payload follows, then the
      object's own bytes unless it was already known and is unmodified. */
  function EncodeRef(d: Descriptor, known: bool, modified: bool, payload: seq<Byte>): (r: seq<Byte>)
    ensures |r| == if known && !modified then 9 else 9 + |payload|
    ensures r[..8] == EncodeU64(d.index)
    ensures r[8] == (if known && !modified then 0 else 1)
  {
    EncodeU64(d.index) + EncodeBool(modified || !known) + if known && !modified then [] else payload
  }

  /** The outcome of `write`: the bytes emitted, the sender's tables and
      counter afterwards. */
  datatype RefWrite = RefWrite(bytes: seq<Byte>, tables: Tables, last: U64)

  /** `write` from tables `t` and a counter at `last`: the null descriptor
      for null; otherwise `findOrMake`, then the descriptor, the flag and,
      when needed, the payload. */
  function EncodeRefWith(t: Tables, last: U64, value: Option<Addr>, modified: bool, payload: seq<Byte>): (w: RefWrite)
    ensures value.None? ==> w == RefWrite(EncodeU64(0), t, last)
    ensures Consistent(t) ==> Consistent(w.tables)
    ensures |w.bytes| >= 8
    ensures value.Some? ==> FindEntry(w.tables, value).1.index == BigEndian(w.bytes[..8])
  {
    if value.None? then RefWrite(EncodeU64(0), t, last)
    else
      var m := FindOrMakeEntry(t, value, NextIndex(last));
      EncodeU64Value(m.descriptor.index);
      RefWrite(EncodeRef(m.descriptor, m.known, modified, payload), m.tables,
               if m.usedFresh then NextIndex(last) else last)
  }

  /** `write(writer, variableSet, value, modified)`; `payload` stands for
      the bytes `value->write` produces. */
  method WriteRef(writer: Writer, vs: VariableSet, counter: IndexSource, value: Option<Addr>,
                  modified: bool, payload: seq<Byte>)
    modifies writer, vs, counter
    ensures var w := EncodeRefWith(old(vs.State()), old(counter.last), value, modified, payload);
            writer.bytes == old(writer.bytes) + w.bytes && vs.State() == w.tables && counter.last == w.last
  {
    if value.None? {
      WriteDescriptor(writer, NullDescriptor);
      return;
    }
    var d, known := vs.FindOrMake(value, counter);
    WriteDescriptor(writer, d);
    writer.WriteBool(modified || !known);
    if known && !modified {
      return;
    }
    writer.WriteBytes(payload);
  }

  /** What a reference read produces: the object or the exception, the
      offset reached, and the tables afterwards. */
  datatype RefRead = RefRead(result: Result<Option<Addr>, IOError>, next: nat, tables: Tables)

  /** A reader for the object's own bytes (`T::read`), as a function of the
      input and the offset. */
  type ObjectReader = (seq<Byte>, nat) -> Parse<Addr>

  /** Readers that neither step back nor run past the input. */
  ghost predicate WellBehaved(readObject: ObjectReader)
  {
    forall s: seq<Byte>, k: nat {:trigger readObject(s, k)} ::
      k <= |s| ==> k <= readObject(s, k).next <= |s|
  }

  /** The rest of `read` once descriptor `d` was taken as present: the
      current object, the `modified` flag, and, unless the object is known
      and unmodified, the object's bytes, which are then `set` under `d`. */
  function DecodeRefBody(s: seq<Byte>, i: nat, t: Tables, readObject: ObjectReader, d: Descriptor): RefRead
  {
    var retval := GetEntry(t, d);
    var modified := DecodeBool(s, i);
    if modified.result.Failure? then RefRead(Failure(modified.result.error), modified.next, t)
    else if retval.Some? && !modified.result.value then RefRead(Success(retval), modified.next, t)
    else
      var o := readObject(s, modified.next);
      if o.result.Failure? then RefRead(Failure(o.result.error), o.next, t)
      else RefRead(Success(Some(o.result.value)), o.next, SetEntry(t, d, Some(o.result.value)).0)
  }

  /** `read` as written: it returns null when `!descriptor`, which the
      inverted `operator!` makes true for every non-null descriptor. */
  function DecodeRefAsWritten(s: seq<Byte>, i: nat, t: Tables, readObject: ObjectReader): RefRead
  {
    var p := DecodeU64(s, i);
    if p.result.Failure? then RefRead(Failure(p.result.error), p.next, t)
    else if Descriptor(p.result.value).Not() then RefRead(Success(None), p.next, t)
    else DecodeRefBody(s, p.next, t, readObject, Descriptor(p.result.value))
  }

  /** `read` as intended: null exactly for the null descriptor. */
  function DecodeRefIntended(s: seq<Byte>, i: nat, t: Tables, readObject: ObjectReader): RefRead
  {
    var p := DecodeU64(s, i);
    if p.result.Failure? then RefRead(Failure(p.result.error), p.next, t)
    else if p.result.value == 0 then RefRead(Success(None), p.next, t)
    else DecodeRefBody(s, p.next, t, readObject, Descriptor(p.result.value))
  }

  /** `read(reader, variableSet)` as written. */
  method ReadRef(reader: MemoryReader, vs: VariableSet, readObject: ObjectReader)
    returns (r: Result<Option<Addr>, IOError>)
    requires reader.Valid() && WellBehaved(readObject)
    modifies reader, vs
    ensures reader.Valid()
    ensures var p := DecodeRefAsWritten(reader.Input(), old(reader.offset), old(vs.State()), readObject);
            r == p.result && reader.offset == p.next && vs.State() == p.tables
  {
    var d := ReadDescriptor(reader);
    if d.Failure? {
      return Failure(d.error);
    }
    if d.value.Not() {
      return Success(None);
    }
    var retval := vs.Get(d.value);
    var modified := reader.ReadBool();
    if modified.Failure? {
      return Failure(modified.error);
    }
    if retval.Some? && !modified.value {
      return Success(retval);
    }
    var o := readObject(reader.Input(), reader.offset);
    reader.offset := o.next;
    if o.result.Failure? {
      return Failure(o.result.error);
    }
    var _ := vs.Set(d.value, Some(o.result.value));
    r := Success(Some(o.result.value));
  }

  // ---------------------------------------------------------------------------
  // What the protocol does with the bytes `write` produced

  /** As written, every non-null reference is read back as null after the
      8 descriptor bytes, leaving the flag (and any payload) unread, and
      the receiving set does not learn the object. */
  lemma AsWrittenReadDropsReference(d: Descriptor, known: bool, modified: bool, payload: seq<Byte>,
                                    rest: seq<Byte>, t: Tables, readObject: ObjectReader)
    requires d.index != 0
    ensures DecodeRefAsWritten(EncodeRef(d, known, modified, payload) + rest, 0, t, readObject)
            == RefRead(Success(None), 8, t)
  {
    var s := EncodeRef(d, known, modified, payload) + rest;
    assert s[0..8] == EncodeU64(d.index);
    DecodeU64RoundTrip(s, 0, d.index);
  }

  /** As written, the null reference makes `read` go on to consume a flag
      byte that `write` never emitted. */
  lemma AsWrittenReadOfNullConsumesFlag(rest: seq<Byte>, t: Tables, readObject: ObjectReader)
    requires |rest| > 0 && 0 !in t.variables && WellBehaved(readObject)
    ensures DecodeRefAsWritten(EncodeU64(0) + rest, 0, t, readObject).next > 8
  {
    var s := EncodeU64(0) + rest;
    assert s[0..8] == EncodeU64(0);
    DecodeU64RoundTrip(s, 0, 0);
    assert 9 <= readObject(s, 9).next;
  }

  /** As intended, the null reference reads back as null after its 8 bytes. */
  lemma IntendedReadOfNull(rest: seq<Byte>, t: Tables, readObject: ObjectReader)
    ensures DecodeRefIntended(EncodeU64(0) + rest, 0, t, readObject) == RefRead(Success(None), 8, t)
  {
    var s := EncodeU64(0) + rest;
    assert s[0..8] == EncodeU64(0);
    DecodeU64RoundTrip(s, 0, 0);
  }

  /** As intended, a reference sent with its payload is read back as the
      object the payload decodes to, which the receiver then knows under
      the same descriptor; one sent without payload is read back as the
      object the receiver already holds for that descriptor. */
  lemma IntendedReadRoundTrip(d: Descriptor, known: bool, modified: bool, payload: seq<Byte>,
                              rest: seq<Byte>, t: Tables, readObject: ObjectReader, o: Addr)
    requires d.index != 0
    requires !(known && !modified) ==>
               readObject(EncodeRef(d, known, modified, payload) + rest, 9) == Parse(Success(o), 9 + |payload|)
    requires known && !modified ==> GetEntry(t, d) == Some(o)
    ensures var p := DecodeRefIntended(EncodeRef(d, known, modified, payload) + rest, 0, t, readObject);
            p.result == Success(Some(o)) && p.next == |EncodeRef(d, known, modified, payload)| &&
            GetEntry(p.tables, d) == Some(o)
  {
    var e := EncodeRef(d, known, modified, payload);
    var s := e + rest;
    assert s[0..8] == EncodeU64(d.index);
    DecodeU64RoundTrip(s, 0, d.index);
    assert s[8] == e[8];
  }
}
