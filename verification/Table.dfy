/** One append-only table: a byte array, an index into it, and its counters. */
module Tables {
  import opened Bytes
  import opened Entry
  import opened TableSpec

  /** Go's `copy(memory[at:], bytes)` where the bytes fit. */
  method CopyInto(memory: array<byte>, at: nat, bytes: seq<byte>)
    requires at + |bytes| <= memory.Length
    modifies memory
    ensures memory[..at] == old(memory[..at])
    ensures memory[at..at + |bytes|] == bytes
    ensures memory[at + |bytes|..] == old(memory[at + |bytes|..])
  {
    forall i | 0 <= i < |bytes| {
      memory[at + i] := bytes[i];
    }
  }

  class Table {
    var hkeys: map<uint64, nat>
    const memory: array<byte>
    var offset: nat
    const capacity: nat // Go's `allocated`
    var inuse: int
    var garbage: int
    ghost var live: Entries

    ghost predicate Valid()
      reads this, memory
    {
      && memory.Length == capacity
      && offset < capacity
      && hkeys.Keys == live.Keys
      && Layout(hkeys, live, memory[..], offset)
      && Sound(View())
    }

    ghost function View(): (t: TableView)
      reads this
    {
      TableView(live, offset, capacity, inuse, garbage)
    }

    constructor (size: int)
      ensures Valid() && fresh(memory)
      ensures View() == Fresh(size)
    {
      hide Sound, Slack, Layout;
      hkeys, live := map[], map[];
      capacity := AtLeastMinimum(size);
      memory := new byte[AtLeastMinimum(size)](_ => 0);
      offset, inuse, garbage := 0, 0, 0;
      new;
      FreshSound(size);
      EmptyLayout(memory[..]);
      assert View() == Fresh(size) && Sound(View());
      assert Layout(hkeys, live, memory[..], offset);
    }

    method PutRaw(hkey: uint64, value: seq<byte>) returns (r: Option<PutError>)
      requires Valid() && WellFormed(value)
      modifies this, memory
      ensures Valid()
      ensures r == if HasRoom(old(View()), |value|) then None else Some(NotEnoughSpace)
      ensures View() == if r == None then Appended(old(View()), hkey, value) else old(View())
    {
      hide Sound, Slack, Layout, WellFormed, Trim;
      if |value| + offset >= capacity {
        return Some(NotEnoughSpace);
      }
      ghost var before, old_ := memory[..], View();
      hkeys := hkeys[hkey := offset];
      CopyInto(memory, offset, value);
      AppendKeepsLayout(old(hkeys), live, before, memory[..], offset, hkey, value, Trim(value));
      AppendedSound(old_, hkey, value);
      live := live[hkey := Trim(value)];
      inuse := inuse + |value|;
      offset := offset + |value|;
      return None;
    }

    method Put(hkey: uint64, value: VData) returns (r: Option<PutError>)
      requires Valid()
      modifies this, memory
      ensures Valid()
      ensures r == if |value.key| >= 256 then Some(KeyTooLarge)
                   else if HasRoom(old(View()), |value.key| + |value.value| + 13) then None
                   else Some(NotEnoughSpace)
      ensures View() == if r == None then TableSpec.Put(old(View()), hkey, value) else old(View())
    {
      hide Sound, Slack, Layout, WellFormed, Trim, Encode;
      if |value.key| >= MAX_KEY_LEN {
        return Some(KeyTooLarge);
      }
      var size := |value.key| + |value.value| + 13;
      if size + offset >= capacity {
        return Some(NotEnoughSpace);
      }
      if hkey in hkeys {
        var _ := Delete(hkey);
      }
      AppendEntry(hkey, value);
      return None;
    }

    /** Writes `value` at the end of the used area and points `hkey` at it. */
    method AppendEntry(hkey: uint64, value: VData)
      requires Valid() && |value.key| < MAX_KEY_LEN && HasRoom(View(), |Encode(value)|)
      modifies this, memory
      ensures Valid()
      ensures WellFormed(Encode(value)) && View() == Appended(old(View()), hkey, Encode(value))
    {
      hide Sound, Slack, Layout, WellFormed, Trim, Encode;
      ghost var before, keys, old_ := memory[..], hkeys, View();
      hkeys := hkeys[hkey := offset];
      inuse := inuse + |value.key| + |value.value| + 13;
      var end := WriteEntry(offset, value);

      DecodeEncode(value);
      AppendKeepsLayout(keys, live, before, memory[..], offset, hkey, Encode(value), Trim(Encode(value)));
      AppendedSound(old_, hkey, Encode(value));
      live := live[hkey := Trim(Encode(value))];
      offset := end;
      assert View() == Appended(old_, hkey, Encode(value));
      assert Layout(hkeys, live, memory[..], offset);
    }

    /** Lays the fields of `value` down one after the other from `start` on. */
    method WriteEntry(start: nat, value: VData) returns (end: nat)
      requires |value.key| < MAX_KEY_LEN && start + |Encode(value)| <= memory.Length
      modifies memory
      ensures end == start + |Encode(value)|
      ensures memory[..start] == old(memory[..start]) && memory[start..end] == Encode(value)
    {
      end := WriteAt(start, start, [|value.key|]);
      end := WriteAt(start, end, value.key);
      end := WriteAt(start, end, ToBE(Unsigned(value.ttl), 8));
      end := WriteAt(start, end, ToBE(|value.value|, 4));
      end := WriteAt(start, end, value.value);
    }

    /** Copies `bytes` to `at` and returns the position after them; what was written since `start` stays. */
    method WriteAt(ghost start: nat, at: nat, bytes: seq<byte>) returns (end: nat)
      requires start <= at && at + |bytes| <= memory.Length
      modifies memory
      ensures end == at + |bytes|
      ensures memory[..start] == old(memory[..start])
      ensures memory[start..end] == old(memory[start..at]) + bytes
    {
      CopyInto(memory, at, bytes);
      end := at + |bytes|;
      assert memory[..start] == memory[..at][..start];
      assert memory[start..end] == memory[..at][start..] + memory[at..end];
    }

    method GetRaw(hkey: uint64) returns (raw: seq<byte>, prev: bool)
      requires Valid()
      ensures prev == (hkey !in live)
      ensures !prev ==> raw == RawForm(live[hkey])
    {
      hide Sound, Slack, Layout, FromBE, Pow256;
      if hkey !in hkeys {
        return [], true;
      }
      var start := hkeys[hkey];
      FieldsAt(hkey);
      var klen: nat := memory[start];
      var end := start + 1 + klen + 8;
      var vlen := FromBE(memory[end..end + 4]);
      end := end + 4 + vlen;
      return memory[start..end] + [0], false;
    }

    method Get(hkey: uint64) returns (v: VData, prev: bool)
      requires Valid()
      ensures prev == (hkey !in live)
      ensures !prev ==> IsEntry(live[hkey]) && v == Decode(live[hkey])
    {
      hide Sound, Slack, Layout, FromBE, Pow256;
      if hkey !in hkeys {
        return VData([], 0, []), true;
      }
      var at := hkeys[hkey];
      FieldsAt(hkey);
      Pow256Values();
      var klen: nat := memory[at];
      at := at + 1;
      var key := memory[at..at + klen];
      at := at + klen;
      var ttl := Signed(FromBE(memory[at..at + 8]));
      at := at + 8;
      var vlen := FromBE(memory[at..at + 4]);
      at := at + 4;
      return VData(key, ttl, memory[at..at + vlen]), false;
    }

    /** The fields read at a live index are those of its entry. */
    lemma FieldsAt(hkey: uint64)
      requires Valid() && hkey in hkeys
      ensures IsEntry(live[hkey]) && hkeys[hkey] + |live[hkey]| <= memory.Length
      ensures FieldsOf(memory[..], hkeys[hkey], live[hkey])
    {
      hide IsEntry, FieldsOf;
      assert Holds(memory[..], hkeys[hkey], live[hkey], offset);
      EntryFields(memory[..], hkeys[hkey], live[hkey]);
    }

    method Delete(hkey: uint64) returns (prev: bool)
      requires Valid()
      modifies this
      ensures Valid()
      ensures prev == (hkey !in old(live))
      ensures View() == Deleted(old(View()), hkey)
    {
      hide Sound, Slack, Layout, Decode, FromBE, Pow256;
      if hkey !in hkeys {
        return true;
      }
      ghost var old_ := View();
      var at := hkeys[hkey];
      FieldsAt(hkey);
      var klen: nat := memory[at];
      var vlen := FromBE(memory[at + 9 + klen..at + 13 + klen]);
      var freed := 1 + klen + 8 + 4 + vlen;
      DeletedSound(old_, hkey);
      DeleteKeepsLayout(hkeys, live, memory[..], offset, hkey);
      hkeys, live := hkeys - {hkey}, live - {hkey};
      garbage := garbage + freed;
      inuse := inuse - freed;
      assert View() == Deleted(old_, hkey);
      assert Layout(hkeys, live, memory[..], offset);
      return false;
    }

    /** Overwrites the table with a described one; `t` names what the description stands for. */
    method Restore(hkeys': map<uint64, nat>, bytes: seq<byte>, offset': nat, inuse': int, garbage': int,
                   ghost t: TableView)
      requires Valid()
      modifies this, memory
      ensures hkeys == hkeys' && offset == offset' && inuse == inuse' && garbage == garbage'
      ensures Describes(hkeys', bytes, offset', capacity, inuse', garbage', t) ==> Valid() && View() == t
    {
      hide Layout, Sound, Slack;
      hkeys, offset, inuse, garbage, live := hkeys', offset', inuse', garbage', t.live;
      var n := if |bytes| < memory.Length then |bytes| else memory.Length;
      CopyInto(memory, 0, bytes[..n]);
      if Describes(hkeys', bytes, offset', capacity, inuse', garbage', t) {
        LayoutSizes(hkeys', bytes, t);
        assert memory[..offset'] == memory[0..n][..offset'] == bytes[..offset'];
        LayoutPrefix(hkeys', t.live, bytes, memory[..], offset');
      }
    }
  }
}
