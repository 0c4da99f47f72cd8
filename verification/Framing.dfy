/**
 Length-prefixed framing: `frame`, `unframe`, the forward-only cursor and the key-store encoding of
 `group/src/lib.rs`, and the byte list that crosses the FFI, written by `ffi/src/lib.rs` and read
 by `app/lib/src/ffi/clarity.dart`. Lengths are little-endian 32-bit words; writing one truncates.
 */
module Framing {
  import opened Results

  const WORD: nat := 0x1_0000_0000

  /** `(n as u32).to_le_bytes()`. */
  function Le32(n: nat): (word: Bytes)
    ensures |word| == 4
  {
    [(n % 0x100) as byte, (n / 0x100 % 0x100) as byte, (n / 0x100 / 0x100 % 0x100) as byte,
     (n / 0x100 / 0x100 / 0x100 % 0x100) as byte]
  }

  function FromLe32(b: Bytes): nat
    requires |b| == 4
  {
    b[0] as nat + 0x100 * b[1] as nat + 0x1_0000 * b[2] as nat + 0x100_0000 * b[3] as nat
  }

  /** The low byte comes first, and the others are those of the rest of the number. */
  lemma {:induction false} LowByteFirst(n: nat)
    ensures Le32(n)[0] as nat == n % 0x100 && Le32(n)[1..] == Le32(n / 0x100)[..3]
  {
  }

  /** Writing a number as a word keeps it modulo 2^32. */
  lemma {:induction false} WriteThenRead(n: nat)
    ensures FromLe32(Le32(n)) == n % WORD
  {
    var n1 := n / 0x100;
    var n2 := n1 / 0x100;
    var n3 := n2 / 0x100;
    var n4 := n3 / 0x100;
  }

  /** Every four bytes are the word they spell. */
  lemma {:induction false} ReadThenWrite(b: Bytes)
    requires |b| == 4
    ensures FromLe32(b) < WORD && Le32(FromLe32(b)) == b
  {
    var n := FromLe32(b);
    var n3 := b[3] as nat;
    var n2 := b[2] as nat + 0x100 * n3;
    var n1 := b[1] as nat + 0x100 * n2;
    assert n == b[0] as nat + 0x100 * n1;
    assert n / 0x100 == n1 && n1 / 0x100 == n2 && n2 / 0x100 == n3;
  }

  function Frame(fields: seq<Bytes>): Bytes
    decreases |fields|
  {
    if fields == [] then [] else Le32(|fields[0]|) + fields[0] + Frame(fields[1..])
  }

  /** Every length fits the 32-bit prefix. */
  ghost predicate Short(fields: seq<Bytes>) {
    forall i :: 0 <= i < |fields| ==> |fields[i]| < WORD
  }

  /** What reading is left to yield once `done` has been read. */
  function After(done: seq<Bytes>, more: Option<(seq<Bytes>, Bytes)>): Option<(seq<Bytes>, Bytes)> {
    if more.None? then None else Some((done + more.value.0, more.value.1))
  }

  lemma {:induction false} AfterNothing(more: Option<(seq<Bytes>, Bytes)>)
    ensures After([], more) == more
  {
    if more.Some? {
      assert [] + more.value.0 == more.value.0;
    }
  }

  /** Reading one field on, or failing to. */
  lemma {:induction false} AfterOne(done: seq<Bytes>, bytes: Bytes, count: nat)
    requires count > 0
    ensures After(done, TakeFields(bytes, count)) ==
            match TakeField(bytes)
            case None => None
            case Some((field, rest)) => After(done + [field], TakeFields(rest, count - 1))
  {
    var first := TakeField(bytes);
    if first.Some? && TakeFields(first.value.1, count - 1).Some? {
      var more := TakeFields(first.value.1, count - 1).value.0;
      assert done + ([first.value.0] + more) == done + [first.value.0] + more;
    }
  }

  /** One field off the front, with what is left. */
  function TakeField(bytes: Bytes): Option<(Bytes, Bytes)> {
    if |bytes| < 4 then None
    else
      var len := FromLe32(bytes[..4]);
      if |bytes| < 4 + len then None else Some((bytes[4..4 + len], bytes[4 + len..]))
  }

  function TakeFields(bytes: Bytes, count: nat): Option<(seq<Bytes>, Bytes)> {
    if count == 0 then Some(([], bytes))
    else
      var first := TakeField(bytes);
      if first.None? then None
      else
        var more := TakeFields(first.value.1, count - 1);
        if more.None? then None else Some(([first.value.0] + more.value.0, more.value.1))
  }

  function Unframe(bytes: Bytes, count: nat): Option<seq<Bytes>> {
    var r := TakeFields(bytes, count);
    if r.Some? && r.value.1 == [] then Some(r.value.0) else None
  }

  lemma {:induction false} TakeFieldIs(bytes: Bytes, field: Bytes, rest: Bytes)
    ensures TakeField(bytes) == Some((field, rest)) <==>
              |field| < WORD && bytes == Le32(|field|) + field + rest
  {
    if |bytes| >= 4 {
      WriteThenRead(|field|);
      ReadThenWrite(bytes[..4]);
      if TakeField(bytes) == Some((field, rest)) {
        assert bytes == bytes[..4] + bytes[4..4 + |field|] + bytes[4 + |field|..];
      }
      if |field| < WORD && bytes == Le32(|field|) + field + rest {
        assert bytes[..4] == Le32(|field|);
      }
    }
  }

  /** Reading `count` fields yields `fields` and `rest` exactly when the bytes are the frame of
      `fields` followed by `rest`. */
  lemma {:induction false} TakeFieldsIs(bytes: Bytes, count: nat, fields: seq<Bytes>, rest: Bytes)
    ensures TakeFields(bytes, count) == Some((fields, rest)) <==>
              |fields| == count && Short(fields) && bytes == Frame(fields) + rest
  {
    hide TakeFields, Frame, Short;
    if TakeFields(bytes, count) == Some((fields, rest)) {
      TakenWereFramed(bytes, count, fields, rest);
    }
    if |fields| == count && Short(fields) {
      FramedAreTaken(fields, rest);
    }
  }

  lemma {:induction false} FramedAreTaken(fields: seq<Bytes>, rest: Bytes)
    requires Short(fields)
    ensures TakeFields(Frame(fields) + rest, |fields|) == Some((fields, rest))
    decreases |fields|
  {
    hide Le32, TakeField;
    if fields == [] {
      assert Frame(fields) + rest == rest;
    } else {
      var front, behind := Le32(|fields[0]|) + fields[0], Frame(fields[1..]) + rest;
      assert Frame(fields) == front + Frame(fields[1..]);
      hide Frame;
      assert front + Frame(fields[1..]) + rest == front + behind;
      TakeFieldIs(Frame(fields) + rest, fields[0], behind);
      FramedAreTaken(fields[1..], rest);
      assert fields == [fields[0]] + fields[1..];
    }
  }

  lemma {:induction false} TakenWereFramed(bytes: Bytes, count: nat, fields: seq<Bytes>, rest: Bytes)
    requires TakeFields(bytes, count) == Some((fields, rest))
    ensures |fields| == count && Short(fields) && bytes == Frame(fields) + rest
    decreases count
  {
    hide Le32, TakeField;
    if count == 0 {
      assert Frame(fields) + rest == rest;
    } else {
      var (field, behind) := TakeField(bytes).value;
      assert fields == [field] + fields[1..];
      TakeFieldIs(bytes, field, behind);
      TakenWereFramed(behind, count - 1, fields[1..], rest);
      assert Frame(fields) == Le32(|field|) + field + Frame(fields[1..]);
      assert bytes == Le32(|field|) + field + (Frame(fields[1..]) + rest);
    }
  }

  /** `unframe` accepts exactly the frames, and returns what was framed. */
  lemma {:induction false} UnframeInvertsFrame(bytes: Bytes, count: nat, fields: seq<Bytes>)
    ensures Unframe(bytes, count) == Some(fields) <==> |fields| == count && Short(fields) && bytes == Frame(fields)
  {
    TakeFieldsIs(bytes, count, fields, []);
    assert Frame(fields) + [] == Frame(fields);
  }

  // ------------------------------------------------------------------ the cursor

  class Cursor {
    const bytes: Bytes
    var i: nat

    ghost predicate Valid()
      reads this
    {
      i <= |bytes|
    }

    function Rest(): Bytes
      requires Valid()
      reads this
    {
      bytes[i..]
    }

    constructor (bytes: Bytes)
      ensures Valid() && Rest() == bytes && this.bytes == bytes
    {
      this.bytes, i := bytes, 0;
    }

    method ReadU32() returns (r: Option<nat>)
      requires Valid()
      modifies this
      ensures Valid()
      ensures r.None? <==> |old(Rest())| < 4
      ensures r.None? ==> Rest() == old(Rest())
      ensures r.Some? ==> r.value == FromLe32(old(Rest())[..4]) && Rest() == old(Rest())[4..]
    {
      var end := i + 4;
      if end > |bytes| {
        return None;
      }
      assert bytes[i..end] == bytes[i..][..4] && bytes[i..][4..] == bytes[end..];
      r := Some(FromLe32(bytes[i..end]));
      i := end;
    }

    method ReadBytes() returns (r: Option<Bytes>)
      requires Valid()
      modifies this
      ensures Valid()
      ensures r.Some? <==> TakeField(old(Rest())).Some?
      ensures r.Some? ==> TakeField(old(Rest())) == Some((r.value, Rest()))
      ensures r.None? ==> Rest() == if |old(Rest())| < 4 then old(Rest()) else old(Rest())[4..]
    {
      ghost var start := i;
      var len := ReadU32();
      if len.None? {
        return None;
      }
      var end := i + len.value;
      if end > |bytes| {
        return None;
      }
      assert bytes[i..end] == bytes[start..][4..4 + len.value];
      assert bytes[end..] == bytes[start..][4 + len.value..];
      r := Some(bytes[i..end]);
      i := end;
    }

    method IsDone() returns (done: bool)
      requires Valid()
      ensures done <==> Rest() == []
    {
      done := i == |bytes|;
    }
  }

  method WriteFrame(fields: seq<Bytes>) returns (out: Bytes)
    ensures out == Frame(fields)
  {
    out := [];
    for k := 0 to |fields|
      invariant out + Frame(fields[k..]) == Frame(fields)
    {
      assert fields[k..][1..] == fields[k + 1..];
      out := out + Le32(|fields[k]|);
      out := out + fields[k];
    }
    assert out + [] == out;
  }

  method ReadFrame(bytes: Bytes, count: nat) returns (r: Option<seq<Bytes>>)
    ensures r == Unframe(bytes, count)
  {
    var cur := new Cursor(bytes);
    var out := [];
    AfterNothing(TakeFields(bytes, count));
    for k := 0 to count
      invariant cur.Valid() && fresh(cur)
      invariant TakeFields(bytes, count) == After(out, TakeFields(cur.Rest(), count - k))
    {
      AfterOne(out, cur.Rest(), count - k);
      var field := cur.ReadBytes();
      if field.None? {
        return None;
      }
      out := out + [field.value];
    }
    var done := cur.IsDone();
    assert out + [] == out;
    return if done then Some(out) else None;
  }

  // ------------------------------------------------------------------ the key store

  type Entries = seq<(Bytes, Bytes)>

  function Flat(items: Entries): seq<Bytes>
    decreases |items|
  {
    if items == [] then [] else [items[0].0, items[0].1] + Flat(items[1..])
  }

  /** The store's entries in the order the hash map happens to yield them. */
  function ExportStore(items: Entries): Bytes {
    Le32(|items|) + Frame(Flat(items))
  }

  /** Insert one after another; a later entry replaces an earlier one with its key. */
  function Insert(m: map<Bytes, Bytes>, items: Entries): map<Bytes, Bytes>
    decreases |items|
  {
    if items == [] then m else Insert(m[items[0].0 := items[0].1], items[1..])
  }

  function ReadEntries(bytes: Bytes, count: nat, m: map<Bytes, Bytes>): Option<(map<Bytes, Bytes>, Bytes)> {
    if count == 0 then Some((m, bytes))
    else
      var k := TakeField(bytes);
      if k.None? then None
      else
        var v := TakeField(k.value.1);
        if v.None? then None else ReadEntries(v.value.1, count - 1, m[k.value.0 := v.value.0])
  }

  function ImportStore(bytes: Bytes): Option<map<Bytes, Bytes>> {
    if |bytes| < 4 then None
    else
      var r := ReadEntries(bytes[4..], FromLe32(bytes[..4]), map[]);
      if r.Some? && r.value.1 == [] then Some(r.value.0) else None
  }

  /** `export_state`: identity, public key and key store. */
  function ExportState(identity: Bytes, public: Bytes, items: Entries): Bytes {
    Frame([identity, public, ExportStore(items)])
  }

  function ImportState(bytes: Bytes): Option<(Bytes, Bytes, map<Bytes, Bytes>)> {
    var parts := Unframe(bytes, 3);
    if parts.None? then None
    else
      UnframeInvertsFrame(bytes, 3, parts.value);
      var values := ImportStore(parts.value[2]);
      if values.None? then None else Some((parts.value[0], parts.value[1], values.value))
  }

  lemma {:induction false} FrameFlat(items: Entries)
    requires items != []
    ensures var (k, v) := items[0];
            Frame(Flat(items)) == Le32(|k|) + k + Le32(|v|) + v + Frame(Flat(items[1..]))
  {
    hide Le32;
    var flat := Flat(items);
    assert flat[1..] == [items[0].1] + Flat(items[1..]) && flat[1..][1..] == Flat(items[1..]);
  }

  method WriteState(identity: Bytes, public: Bytes, items: Entries) returns (out: Bytes)
    ensures out == ExportState(identity, public, items)
  {
    hide Le32, Frame, Flat;
    var store := Le32(|items|);
    for n := 0 to |items|
      invariant store + Frame(Flat(items[n..])) == ExportStore(items)
    {
      FrameFlat(items[n..]);
      assert items[n..][1..] == items[n + 1..];
      store := store + Le32(|items[n].0|);
      store := store + items[n].0;
      store := store + Le32(|items[n].1|);
      store := store + items[n].1;
    }
    assert store == ExportStore(items) by {
      NothingLeft(store, items[|items|..]);
    }
    out := WriteFrame([identity, public, store]);
  }

  lemma {:induction false} NothingLeft(store: Bytes, items: Entries)
    requires items == []
    ensures store + Frame(Flat(items)) == store
  {
    assert store + [] == store;
  }

  method ReadStore(bytes: Bytes) returns (r: Option<map<Bytes, Bytes>>)
    ensures r == ImportStore(bytes)
  {
    hide FromLe32, TakeField;
    var cur := new Cursor(bytes);
    var count := cur.ReadU32();
    if count.None? {
      return None;
    }
    var values := map[];
    for n := 0 to count.value
      invariant cur.Valid() && fresh(cur)
      invariant ReadEntries(bytes[4..], count.value, map[]) == ReadEntries(cur.Rest(), count.value - n, values)
    {
      var k := cur.ReadBytes();
      if k.None? {
        return None;
      }
      var v := cur.ReadBytes();
      if v.None? {
        return None;
      }
      values := values[k.value := v.value];
    }
    var done := cur.IsDone();
    return if done then Some(values) else None;
  }

  method ReadState(bytes: Bytes) returns (r: Option<(Bytes, Bytes, map<Bytes, Bytes>)>)
    ensures r == ImportState(bytes)
  {
    var parts := ReadFrame(bytes, 3);
    if parts.None? {
      return None;
    }
    UnframeInvertsFrame(bytes, 3, parts.value);
    var values := ReadStore(parts.value[2]);
    return if values.None? then None else Some((parts.value[0], parts.value[1], values.value));
  }

  /** `items` lists the entries of `m`, each key once, in some order. */
  ghost predicate Enumerates(items: Entries, m: map<Bytes, Bytes>) {
    && (forall i, j :: 0 <= i < j < |items| ==> items[i].0 != items[j].0)
    && (forall i :: 0 <= i < |items| ==> items[i].0 in m && m[items[i].0] == items[i].1)
    && (forall k :: k in m ==> exists i :: 0 <= i < |items| && items[i].0 == k)
  }

  lemma {:induction false} ReadEntriesBack(items: Entries, m: map<Bytes, Bytes>, rest: Bytes)
    requires forall i :: 0 <= i < |items| ==> |items[i].0| < WORD && |items[i].1| < WORD
    ensures ReadEntries(Frame(Flat(items)) + rest, |items|, m) == Some((Insert(m, items), rest))
    decreases |items|
  {
    hide Le32, TakeField;
    if items == [] {
      assert Frame(Flat(items)) + rest == rest;
    } else {
      var (k, v) := items[0];
      var tail := Frame(Flat(items[1..])) + rest;
      FrameFlat(items);
      Regroup(Le32(|k|) + k, Le32(|v|) + v, Frame(Flat(items[1..])), rest);
      TakeFieldIs(Frame(Flat(items)) + rest, k, Le32(|v|) + v + tail);
      TakeFieldIs(Le32(|v|) + v + tail, v, tail);
      ReadEntriesBack(items[1..], m[k := v], rest);
    }
  }

  lemma {:induction false} InsertLooksUp(m: map<Bytes, Bytes>, items: Entries, k: Bytes)
    requires forall i, j :: 0 <= i < j < |items| ==> items[i].0 != items[j].0
    ensures k in Insert(m, items) <==> k in m || exists i :: 0 <= i < |items| && items[i].0 == k
    ensures forall i :: 0 <= i < |items| && items[i].0 == k ==> Insert(m, items)[k] == items[i].1
    ensures k in m && (forall i :: 0 <= i < |items| ==> items[i].0 != k) ==> Insert(m, items)[k] == m[k]
    decreases |items|
  {
    if items != [] {
      InsertLooksUp(m[items[0].0 := items[0].1], items[1..], k);
      assert forall i :: 1 <= i < |items| ==> items[i] == items[1..][i - 1];
    }
  }

  lemma {:induction false} InsertRestores(items: Entries, m: map<Bytes, Bytes>)
    requires Enumerates(items, m)
    ensures Insert(map[], items) == m
  {
    forall k
      ensures k in Insert(map[], items) <==> k in m
      ensures k in m ==> Insert(map[], items)[k] == m[k]
    {
      InsertLooksUp(map[], items, k);
    }
  }

  /** In whatever order the entries were written, importing restores the same state, if and only if
      identity, public key and encoded key store are each short enough for their length prefix. */
  lemma {:induction false} ImportInvertsExport(identity: Bytes, public: Bytes, items: Entries, m: map<Bytes, Bytes>)
    requires Enumerates(items, m)
    ensures ImportState(ExportState(identity, public, items)) == Some((identity, public, m)) <==>
              |identity| < WORD && |public| < WORD && |ExportStore(items)| < WORD
  {
    var fields := [identity, public, ExportStore(items)];
    UnframeInvertsFrame(Frame(fields), 3, fields);
    if |identity| < WORD && |public| < WORD && |ExportStore(items)| < WORD {
      assert Short(fields);
      EntriesFit(items);
      StoreRoundTrip(items);
      InsertRestores(items, m);
    } else if ImportState(Frame(fields)).Some? {
      var parts := Unframe(Frame(fields), 3).value;
      UnframeInvertsFrame(Frame(fields), 3, parts);
      if parts[0] == identity && parts[1] == public {
        SameTail(fields, parts);
      }
    }
  }

  lemma {:induction false} FrameThree(fields: seq<Bytes>)
    requires |fields| == 3
    ensures Frame(fields) ==
            Le32(|fields[0]|) + fields[0] + (Le32(|fields[1]|) + fields[1] + (Le32(|fields[2]|) + fields[2]))
  {
    hide Le32;
    assert fields[1..][1..] == fields[2..] && fields[2..][1..] == [];
    assert Frame(fields[2..]) == Le32(|fields[2]|) + fields[2];
    assert Frame(fields[1..]) == Le32(|fields[1]|) + fields[1] + Frame(fields[2..]);
  }

  /** Frames of three fields that agree on the first two have third fields of equal length. */
  lemma {:induction false} SameTail(a: seq<Bytes>, b: seq<Bytes>)
    requires |a| == |b| == 3 && a[0] == b[0] && a[1] == b[1] && Frame(a) == Frame(b)
    ensures |a[2]| == |b[2]|
  {
    hide Le32, Frame;
    FrameThree(a);
    FrameThree(b);
  }

  /** No entry is longer, and there are no more of them, than the encoded store is long. */
  lemma {:induction false} EntriesFit(items: Entries)
    ensures |items| <= |Frame(Flat(items))|
    ensures forall i :: 0 <= i < |items| ==>
              |items[i].0| <= |Frame(Flat(items))| && |items[i].1| <= |Frame(Flat(items))|
    decreases |items|
  {
    if items != [] {
      FrameFlat(items);
      EntriesFit(items[1..]);
      assert forall i :: 1 <= i < |items| ==> items[i] == items[1..][i - 1];
    }
  }

  lemma {:induction false} StoreRoundTrip(items: Entries)
    requires |items| < WORD
    requires forall i :: 0 <= i < |items| ==> |items[i].0| < WORD && |items[i].1| < WORD
    ensures ImportStore(ExportStore(items)) == Some(Insert(map[], items))
  {
    hide Le32, FromLe32;
    var bytes := ExportStore(items);
    WriteThenRead(|items|);
    assert bytes[..4] == Le32(|items|) && bytes[4..] == Frame(Flat(items)) + [];
    ReadEntriesBack(items, map[], []);
  }

  /** Of entries with the same key the last one counts. */
  lemma {:induction false} LastEntryWins(m: map<Bytes, Bytes>, items: Entries, i: nat)
    requires i < |items| && forall j :: i < j < |items| ==> items[j].0 != items[i].0
    ensures items[i].0 in Insert(m, items) && Insert(m, items)[items[i].0] == items[i].1
    decreases |items|
  {
    var next := m[items[0].0 := items[0].1];
    if i > 0 {
      LastEntryWins(next, items[1..], i - 1);
    } else {
      OtherKeysStay(next, items[1..], items[0].0);
    }
  }

  lemma {:induction false} OtherKeysStay(m: map<Bytes, Bytes>, items: Entries, k: Bytes)
    requires k in m && forall j :: 0 <= j < |items| ==> items[j].0 != k
    ensures k in Insert(m, items) && Insert(m, items)[k] == m[k]
    decreases |items|
  {
    if items != [] {
      OtherKeysStay(m[items[0].0 := items[0].1], items[1..], k);
    }
  }

  ghost predicate ShortEntries(items: Entries) {
    forall i :: 0 <= i < |items| ==> |items[i].0| < WORD && |items[i].1| < WORD
  }

  lemma {:induction false} EntriesWere(bytes: Bytes, count: nat, m: map<Bytes, Bytes>) returns (items: Entries)
    requires ReadEntries(bytes, count, m).Some?
    ensures var (last, rest) := ReadEntries(bytes, count, m).value;
            && |items| == count && ShortEntries(items)
            && bytes == Frame(Flat(items)) + rest && last == Insert(m, items)
    decreases count
  {
    hide Le32, TakeField;
    if count == 0 {
      items := [];
      assert Frame(Flat(items)) + bytes == bytes;
    } else {
      var (k, behind) := TakeField(bytes).value;
      var (v, tail) := TakeField(behind).value;
      TakeFieldIs(bytes, k, behind);
      TakeFieldIs(behind, v, tail);
      var more := EntriesWere(tail, count - 1, m[k := v]);
      items := [(k, v)] + more;
      assert items[1..] == more;
      FrameFlat(items);
      var rest := ReadEntries(bytes, count, m).value.1;
      Regroup(Le32(|k|) + k, Le32(|v|) + v, Frame(Flat(more)), rest);
    }
  }

  lemma {:induction false} Regroup(a: Bytes, b: Bytes, c: Bytes, d: Bytes)
    ensures a + (b + (c + d)) == a + b + c + d
  {
  }

  /** The entries `items`, all short enough for their prefixes, are encoded as `bytes` and yield `m`. */
  ghost predicate Encodes(bytes: Bytes, items: Entries, m: map<Bytes, Bytes>) {
    |items| < WORD && ShortEntries(items) && bytes == ExportStore(items) && m == Insert(map[], items)
  }

  /** A key store is read back exactly from the encodings of entry lists that yield it, with nothing behind
      them and nothing missing. */
  lemma {:induction false} StoreReadsExactly(bytes: Bytes, m: map<Bytes, Bytes>)
    ensures ImportStore(bytes) == Some(m) <==> exists items: Entries :: Encodes(bytes, items, m)
  {
    hide Le32, FromLe32, ReadEntries, Frame, Insert;
    if ImportStore(bytes) == Some(m) {
      var items := EntriesWere(bytes[4..], FromLe32(bytes[..4]), map[]);
      ReadThenWrite(bytes[..4]);
      assert bytes == bytes[..4] + bytes[4..];
      assert Frame(Flat(items)) + [] == Frame(Flat(items));
      assert Encodes(bytes, items, m);
    }
    forall items: Entries | Encodes(bytes, items, m)
      ensures ImportStore(bytes) == Some(m)
    {
      StoreRoundTrip(items);
    }
  }

  /** And a client state exactly from the frames of an identity, a public key and such an encoding. */
  lemma {:induction false} StateReadsExactly(bytes: Bytes, identity: Bytes, public: Bytes, m: map<Bytes, Bytes>)
    ensures ImportState(bytes) == Some((identity, public, m)) <==>
              exists store: Bytes ::
                && bytes == Frame([identity, public, store]) && Short([identity, public, store])
                && ImportStore(store) == Some(m)
  {
    hide ImportStore, Frame, Unframe;
    if ImportState(bytes) == Some((identity, public, m)) {
      var parts := Unframe(bytes, 3).value;
      UnframeInvertsFrame(bytes, 3, parts);
      assert parts == [identity, public, parts[2]];
    }
    forall store: Bytes | bytes == Frame([identity, public, store]) && Short([identity, public, store])
      ensures Unframe(bytes, 3) == Some([identity, public, store])
    {
      UnframeInvertsFrame(bytes, 3, [identity, public, store]);
    }
  }

  // ------------------------------------------------------------------ the FFI byte list

  function EncodeByteList(items: seq<Bytes>): Bytes {
    Le32(|items|) + Frame(items)
  }

  /** The Dart reader; `None` is the range error it throws. */
  function DecodeByteList(bytes: Bytes): Option<seq<Bytes>> {
    if |bytes| < 4 then Some([])
    else
      var r := TakeFields(bytes[4..], FromLe32(bytes[..4]));
      if r.None? then None else Some(r.value.0)
  }

  method WriteByteList(items: seq<Bytes>) returns (out: Bytes)
    ensures out == EncodeByteList(items)
  {
    out := Le32(|items|);
    for k := 0 to |items|
      invariant out + Frame(items[k..]) == EncodeByteList(items)
    {
      assert items[k..][1..] == items[k + 1..];
      out := out + Le32(|items[k]|);
      out := out + items[k];
    }
    assert out + [] == out;
  }

  /** Reading a field at offset `i`, by the range checks an indexed reader makes. */
  lemma {:induction false} TakeFieldAt(bytes: Bytes, i: nat)
    requires i <= |bytes|
    ensures |bytes| < i + 4 ==> TakeField(bytes[i..]) == None
    ensures i + 4 <= |bytes| ==>
              var len := FromLe32(bytes[i..i + 4]);
              TakeField(bytes[i..]) ==
                if |bytes| < i + 4 + len then None
                else Some((bytes[i + 4..i + 4 + len], bytes[i + 4 + len..]))
  {
    hide FromLe32;
    if i + 4 <= |bytes| {
      assert bytes[i..][..4] == bytes[i..i + 4];
      var len := FromLe32(bytes[i..i + 4]);
      if i + 4 + len <= |bytes| {
        assert bytes[i..][4..4 + len] == bytes[i + 4..i + 4 + len];
        assert bytes[i..][4 + len..] == bytes[i + 4 + len..];
      }
    }
  }

  function FieldsAt(bytes: Bytes, offset: nat, count: nat): Option<(seq<Bytes>, Bytes)>
    requires offset <= |bytes|
  {
    TakeFields(bytes[offset..], count)
  }

  lemma {:induction false} AfterAll(done: seq<Bytes>, bytes: Bytes, offset: nat)
    requires offset <= |bytes|
    ensures After(done, FieldsAt(bytes, offset, 0)) == Some((done, bytes[offset..]))
  {
    assert done + [] == done;
  }

  /** One turn of that reader, or its range error. */
  lemma {:induction false} ListStep(bytes: Bytes, offset: nat, out: seq<Bytes>, left: nat)
    requires offset <= |bytes| && left > 0
    ensures After(out, FieldsAt(bytes, offset, left)) ==
            if |bytes| < offset + 4 then None
            else
              var start := offset + 4;
              var end := start + FromLe32(bytes[offset..start]);
              if |bytes| < end then None else After(out + [bytes[start..end]], FieldsAt(bytes, end, left - 1))
  {
    hide FromLe32, TakeField, TakeFields, After;
    AfterOne(out, bytes[offset..], left);
    TakeFieldAt(bytes, offset);
  }

  method ReadByteList(bytes: Bytes) returns (r: Option<seq<Bytes>>)
    ensures r == DecodeByteList(bytes)
  {
    if |bytes| < 4 {
      return Some([]);
    }
    var count := FromLe32(bytes[..4]);
    ghost var whole := FieldsAt(bytes, 4, count);
    assert DecodeByteList(bytes) == if whole.None? then None else Some(whole.value.0);
    hide FromLe32, FieldsAt, After, DecodeByteList;
    var offset := 4;
    var out := [];
    AfterNothing(whole);
    for k := 0 to count
      invariant 4 <= offset <= |bytes|
      invariant whole == After(out, FieldsAt(bytes, offset, count - k))
    {
      ListStep(bytes, offset, out, count - k);
      if offset + 4 > |bytes| {
        return None;
      }
      var len := FromLe32(bytes[offset..offset + 4]);
      offset := offset + 4;
      if offset + len > |bytes| {
        return None;
      }
      out := out + [bytes[offset..offset + len]];
      offset := offset + len;
    }
    AfterAll(out, bytes, offset);
    return Some(out);
  }

  /** The Dart reader returns `items` exactly for their encoding, with anything behind it, and
      reads fewer than four bytes as the empty list. */
  lemma {:induction false} DecodeInvertsEncode(bytes: Bytes, items: seq<Bytes>)
    ensures DecodeByteList(bytes) == Some(items) <==>
              if |bytes| < 4 then items == []
              else |items| < WORD && Short(items) && EncodeByteList(items) <= bytes
  {
    if |bytes| >= 4 {
      if DecodeByteList(bytes) == Some(items) {
        DecodedIsEncoded(bytes, items);
      }
      if |items| < WORD && Short(items) && EncodeByteList(items) <= bytes {
        EncodedIsDecoded(bytes, items);
      }
    }
  }

  lemma {:induction false} DecodedIsEncoded(bytes: Bytes, items: seq<Bytes>)
    requires |bytes| >= 4 && DecodeByteList(bytes) == Some(items)
    ensures |items| < WORD && Short(items) && EncodeByteList(items) <= bytes
  {
    var count := FromLe32(bytes[..4]);
    var tail := TakeFields(bytes[4..], count).value.1;
    ReadThenWrite(bytes[..4]);
    TakeFieldsIs(bytes[4..], count, items, tail);
    assert bytes == EncodeByteList(items) + tail;
  }

  lemma {:induction false} EncodedIsDecoded(bytes: Bytes, items: seq<Bytes>)
    requires |items| < WORD && Short(items) && EncodeByteList(items) <= bytes
    ensures DecodeByteList(bytes) == Some(items)
  {
    hide Le32, FromLe32, TakeFields, Frame;
    var tail := bytes[|EncodeByteList(items)|..];
    WriteThenRead(|items|);
    assert bytes == EncodeByteList(items) + tail;
    assert bytes[..4] == Le32(|items|) && bytes[4..] == Frame(items) + tail;
    TakeFieldsIs(bytes[4..], |items|, items, tail);
  }
}
