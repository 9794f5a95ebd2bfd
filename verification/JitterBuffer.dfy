/** The reordering buffer of Core/JitterBuffer.hpp, one call at a time.

    `Core` is the value of all its atomics and slots. The functions say what one
    uninterrupted call of each operation does to that value; the class below
    performs the calls in place and is proved against them. Interleaved calls are
    the subject of `JitterProtocol`. */
module JitterBuffers {
  import opened Common
  import opened Modular

  datatype SlotState = Empty | Writing | Ready | Reading

  /** `payload` is the slot's whole storage, of which `length` bytes are meaningful. */
  datatype Slot = Slot(state: SlotState, sequence: u16, length: nat, payload: seq<u8>)

  predicate SlotFits(slot: Slot, maxPayload: nat) {
    |slot.payload| == maxPayload && slot.length <= maxPayload
  }

  /** A packet handed out by `pop`. */
  datatype Delivery = Delivery(sequence: u16, payload: seq<u8>)

  function Overwrite(storage: seq<u8>, payload: seq<u8>): seq<u8>
    requires |payload| <= |storage|
  {
    payload + storage[|payload|..]
  }

  datatype Core = Core(
    slots: seq<Slot>,
    maxPayload: nat,
    target: nat,
    buffered: u64,
    first: u16,
    expected: u16,
    hasFirst: bool,
    started: bool,
    lost: u64,
    dropped: u64)
  {
    ghost predicate Valid() {
      && |slots| >= 8
      && 2 <= target < |slots|
      && forall i | 0 <= i < |slots| :: SlotFits(slots[i], maxPayload)
    }

    /** The slot a sequence number is stored in. */
    function Home(sequence: u16): nat
      requires |slots| > 0
    {
      Mod(sequence, |slots|)
    }

    /** The start rule evaluated by a push that has just counted its packet. */
    function AfterStartRule(sequence: u16): Core {
      if started then this else
        var elected := if hasFirst then this else this.(hasFirst := true, first := sequence);
        if elected.buffered >= elected.target then elected.(expected := elected.first, started := true)
        else elected
    }

    function AfterPush(sequence: u16, payload: seq<u8>): (r: (Core, bool))
      requires Valid()
      ensures r.0.Valid()
    {
      var i := Home(sequence);
      if |payload| > maxPayload || !slots[i].state.Empty? then
        (this.(dropped := Inc64(dropped)), false)
      else
        var slot := Slot(Ready, sequence, |payload|, Overwrite(slots[i].payload, payload));
        (this.(slots := slots[i := slot], buffered := Inc64(buffered)).AfterStartRule(sequence), true)
    }

    function AfterPop(capacity: nat): (r: (Core, Option<Delivery>))
      requires Valid()
      ensures r.0.Valid()
    {
      var i := Home(expected);
      var slot := slots[i];
      if !started || !slot.state.Ready? then (this, None)
      else
        var released := this.(slots := slots[i := slot.(state := Empty)], buffered := Dec64(buffered));
        if slot.sequence != expected || slot.length > capacity then (released, None)
        else (released.(expected := Next16(expected)), Some(Delivery(expected, slot.payload[..slot.length])))
    }

    function AfterSkip(): Core {
      if started then this.(expected := Next16(expected), lost := Inc64(lost)) else this
    }

    /** One pass of the consumer: a pop, or a skip while something is buffered. */
    function AfterRound(capacity: nat): (r: (Core, Option<Delivery>))
      requires Valid()
      ensures r.0.Valid()
    {
      var (popped, delivery) := AfterPop(capacity);
      if delivery.Some? then (popped, delivery)
      else if popped.started && popped.buffered > 0 then (popped.AfterSkip(), None)
      else (popped, None)
    }

    function AfterReset(): Core {
      this.(slots := Cleared(slots), buffered := 0, lost := 0, dropped := 0, hasFirst := false, started := false)
    }
  }

  function Cleared(slots: seq<Slot>): seq<Slot> {
    seq(|slots|, i requires 0 <= i < |slots| => slots[i].(state := Empty))
  }

  class JitterBuffer {
    const maxPayload: nat
    const target: nat
    const slots: array<Slot>
    var buffered: u64
    var first: u16
    var expected: u16
    var hasFirst: bool
    var started: bool
    var lost: u64
    var dropped: u64

    ghost function Value(): Core
      reads this, slots
    {
      Core(slots[..], maxPayload, target, buffered, first, expected, hasFirst, started, lost, dropped)
    }

    ghost predicate Valid()
      reads this, slots
    {
      Value().Valid()
    }

    constructor (slotCount: nat, maxPayload: nat, targetPackets: nat)
      requires slotCount >= 8
      ensures Valid() && fresh(slots)
      ensures slots.Length == slotCount && this.maxPayload == maxPayload
      ensures forall i | 0 <= i < slotCount :: slots[i].state.Empty?
      ensures target == if targetPackets < 2 then 2 else Min(targetPackets, slotCount - 1)
      ensures buffered == lost == dropped == 0 && !hasFirst && !started
    {
      this.maxPayload := maxPayload;
      this.target := if targetPackets < 2 then 2 else Min(targetPackets, slotCount - 1);
      var storage: seq<u8> := seq(maxPayload, _ => 0);
      slots := new Slot[slotCount](_ => Slot(Empty, 0, 0, storage));
      buffered, first, expected := 0, 0, 0;
      hasFirst, started := false, false;
      lost, dropped := 0, 0;
    }

    method Push(sequence: u16, payload: seq<u8>) returns (accepted: bool)
      requires Valid()
      modifies this, slots
      ensures Valid()
      ensures Value() == old(Value()).AfterPush(sequence, payload).0
      ensures accepted == old(Value()).AfterPush(sequence, payload).1
    {
      if |payload| > maxPayload {
        dropped := Inc64(dropped);
        return false;
      }
      var i := sequence % slots.Length;
      ModIsRemainder(sequence, slots.Length);
      if !slots[i].state.Empty? {
        dropped := Inc64(dropped);
        return false;
      }
      ghost var before := slots[..];
      slots[i] := slots[i].(state := Writing);
      slots[i] := slots[i].(sequence := sequence);
      slots[i] := slots[i].(length := |payload|);
      slots[i] := slots[i].(payload := Overwrite(slots[i].payload, payload));
      slots[i] := slots[i].(state := Ready);
      assert slots[..] == before[i := Slot(Ready, sequence, |payload|, Overwrite(before[i].payload, payload))];
      buffered := Inc64(buffered);
      if !started {
        if !hasFirst {
          hasFirst := true;
          first := sequence;
        }
        if buffered >= target {
          expected := first;
          started := true;
        }
      }
      accepted := true;
    }

    /** `std::copy_n` into the caller's buffer. */
    static method CopyTo(source: seq<u8>, count: nat, destination: array<u8>)
      requires count <= |source| && count <= destination.Length
      modifies destination
      ensures destination[..count] == source[..count] && destination[count..] == old(destination[count..])
    {
      var k := 0;
      while k < count
        invariant 0 <= k <= count
        invariant forall j | 0 <= j < k :: destination[j] == source[j]
        invariant forall j | k <= j < destination.Length :: destination[j] == old(destination[j])
      {
        destination[k] := source[k];
        k := k + 1;
      }
    }

    method Pop(destination: array<u8>) returns (ok: bool, length: nat, sequence: u16)
      requires Valid()
      modifies this, slots, destination
      ensures Valid()
      ensures Value() == old(Value()).AfterPop(destination.Length).0
      ensures ok == old(Value()).AfterPop(destination.Length).1.Some?
      ensures ok ==>
                && length <= destination.Length
                && old(Value()).AfterPop(destination.Length).1.value
                   == Delivery(sequence, destination[..length])
                && destination[length..] == old(destination[length..])
      ensures !ok ==> length == 0 && destination[..] == old(destination[..])
    {
      length, sequence := 0, 0;
      if !started {
        return false, length, sequence;
      }
      sequence := expected;
      var i := sequence % slots.Length;
      ModIsRemainder(sequence, slots.Length);
      if !slots[i].state.Ready? {
        return false, length, sequence;
      }
      ghost var before := slots[..];
      slots[i] := slots[i].(state := Reading);
      if slots[i].sequence != sequence || slots[i].length > destination.Length {
        slots[i] := slots[i].(state := Empty);
        assert slots[..] == before[i := before[i].(state := Empty)];
        buffered := Dec64(buffered);
        return false, length, sequence;
      }
      CopyTo(slots[i].payload, slots[i].length, destination);
      length := slots[i].length;
      slots[i] := slots[i].(state := Empty);
      assert slots[..] == before[i := before[i].(state := Empty)];
      buffered := Dec64(buffered);
      expected := Next16(sequence);
      ok := true;
    }

    method SkipMissing()
      requires Valid()
      modifies this
      ensures Valid()
      ensures Value() == old(Value()).AfterSkip()
    {
      if started {
        expected := Next16(expected);
        lost := Inc64(lost);
      }
    }

    method Reset()
      requires Valid()
      modifies this, slots
      ensures Valid()
      ensures Value() == old(Value()).AfterReset()
    {
      ghost var before := slots[..];
      var i := 0;
      while i < slots.Length
        invariant 0 <= i <= slots.Length
        invariant forall j | 0 <= j < i :: slots[j] == before[j].(state := Empty)
        invariant forall j | i <= j < slots.Length :: slots[j] == before[j]
        modifies slots
      {
        slots[i] := slots[i].(state := Empty);
        i := i + 1;
      }
      assert slots[..] == Cleared(before);
      buffered, lost, dropped := 0, 0, 0;
      hasFirst, started := false, false;
    }
  }
}
