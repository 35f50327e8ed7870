/** The per-client sliding-window deduplicator, over packed bitmaps updated in place. */
module Dedup {
  import opened Words
  import opened Bits
  import opened Window

  const DEFAULT_DEDUP_WINDOW := 4096

  /** The length of the bitmap of a window of size w, in uint32 arithmetic. */
  function WordCount(w: u32): nat {
    Add32(w, 63) / 64
  }

  /** The word of the bitmap that holds slot j. */
  function WordOf(j: nat): nat {
    j / 64
  }

  /** Every slot has a word in the bitmap exactly for these window sizes; for the others calls fail. */
  lemma EverySlotHasAWordIff(w: u32)
    ensures (w > 0 && forall j: nat :: j < w ==> WordOf(j) < WordCount(w)) <==> 0 < w <= TWO32 - 64
  {
    if w > TWO32 - 64 {
      assert Add32(w, 63) == w + 63 - TWO32 < 64;
      assert WordOf(w - 1) >= WordCount(w);
    } else {
      assert Add32(w, 63) == w + 63;
    }
  }

  class ClientState {
    var maxSeq: u32
    var inited: bool
    const bitmap: array<bv64>

    ghost predicate Valid(w: int)
      reads this, bitmap
    {
      0 < w && bitmap.Length == (w + 63) / 64 && (!inited ==> maxSeq == 0)
    }

    /** The window as a value. */
    ghost function View(w: int): (r: Ring)
      reads this, bitmap
      requires Valid(w)
      ensures |r.bits| == w
    {
      Ring(inited, maxSeq, Unpack(bitmap[..], w))
    }

    constructor (w: u32)
      requires 0 < w <= TWO32 - 64
      ensures Valid(w) && View(w) == EmptyRing(w)
      ensures fresh(bitmap)
    {
      maxSeq, inited := 0, false;
      bitmap := new bv64[WordCount(w)](_ => 0);
      new;
      UnpackZero(bitmap[..], w);
    }

    method SetBit(number: u32, w: u32)
      requires Valid(w)
      modifies bitmap
      ensures Unpack(bitmap[..], w) == old(Unpack(bitmap[..], w))[Slot(number, w) := true]
    {
      var i := number % w;
      UnpackUpdate(bitmap[..], w, i);
      ShiftedOneIsMask(i);
      bitmap[i / 64] := Or(bitmap[i / 64], ShiftedOne(i));
      assert bitmap[..] == old(bitmap[..])[i / 64 := Or(old(bitmap[i / 64]), Mask(i % 64))];
    }

    method ClearBit(number: u32, w: u32)
      requires Valid(w)
      modifies bitmap
      ensures Unpack(bitmap[..], w) == old(Unpack(bitmap[..], w))[Slot(number, w) := false]
    {
      var i := number % w;
      UnpackUpdate(bitmap[..], w, i);
      ShiftedOneIsMask(i);
      bitmap[i / 64] := AndNot(bitmap[i / 64], ShiftedOne(i));
      assert bitmap[..] == old(bitmap[..])[i / 64 := AndNot(old(bitmap[i / 64]), Mask(i % 64))];
    }

    method GetBit(number: u32, w: u32) returns (b: bool)
      requires Valid(w)
      ensures b == View(w).bits[Slot(number, w)]
    {
      var i := number % w;
      ShiftedOneIsMask(i);
      b := And(bitmap[i / 64], ShiftedOne(i)) != 0;
    }

    method ClearAll(w: u32)
      requires Valid(w)
      modifies bitmap
      ensures Unpack(bitmap[..], w) == seq(w, _ => false)
    {
      for i := 0 to bitmap.Length
        invariant forall j :: 0 <= j < i ==> bitmap[j] == 0
      {
        bitmap[i] := 0;
      }
      UnpackZero(bitmap[..], w);
    }

    /** Clears the bits of maxSeq+1, ..., maxSeq+shift. */
    method ClearRange(shift: nat, w: u32)
      requires Valid(w)
      modifies bitmap
      ensures Unpack(bitmap[..], w) == ClearAfter(old(Unpack(bitmap[..], w)), maxSeq, shift)
    {
      ghost var was := Unpack(bitmap[..], w);
      var i := 1;
      while i <= shift
        invariant 1 <= i <= shift + 1
        invariant Unpack(bitmap[..], w) == ClearAfter(was, maxSeq, i - 1)
      {
        ClearBit(Add32(maxSeq, i % TWO32), w);
        i := i + 1;
      }
    }

    /** True if the packet should be dropped; the new window and the verdict are those of RingStep. */
    method Check(number: u32, w: u32) returns (dup: bool)
      requires Valid(w)
      modifies this, bitmap
      ensures Valid(w)
      ensures View(w) == RingStep(old(View(w)), number).0
      ensures dup == RingStep(old(View(w)), number).1
    {
      if !inited {
        inited := true;
        maxSeq := number;
        SetBit(number, w);
        return false;
      }
      var diff := number - maxSeq;
      if diff > TWO31 {
        diff := diff - TWO32;
      } else if diff < -TWO31 {
        diff := diff + TWO32;
      }
      if diff > 0 {
        if diff >= w {
          ClearAll(w);
        } else {
          ClearRange(diff, w);
        }
        maxSeq := number;
        SetBit(number, w);
        return false;
      }
      if diff == 0 {
        return true;
      }
      var behind := -diff;
      if behind >= w {
        ClearAll(w);
        maxSeq := number;
        SetBit(number, w);
        return false;
      }
      var seen := GetBit(number, w);
      if seen {
        return true;
      }
      SetBit(number, w);
      return false;
    }
  }

  // ----- packed bit arrays -----

  ghost predicate Holds(words: seq<bv64>, w: int) {
    0 <= w && |words| == (w + 63) / 64
  }

  /** Bits 0..w-1 of the packed words. */
  ghost function Unpack(words: seq<bv64>, w: int): (bits: seq<bool>)
    requires Holds(words, w)
    ensures |bits| == w
  {
    seq(w, i requires 0 <= i < w => BitAt(words[i / 64], i % 64))
  }

  lemma UnpackZero(words: seq<bv64>, w: int)
    requires Holds(words, w) && forall i :: 0 <= i < |words| ==> words[i] == 0
    ensures Unpack(words, w) == seq(w, _ => false)
  {
    forall i | 0 <= i < w
      ensures !Unpack(words, w)[i]
    {
      ZeroWord(i % 64);
    }
  }

  /** Setting or clearing one bit of one word is a single update of the unpacked bits. */
  lemma UnpackUpdate(words: seq<bv64>, w: int, i: nat)
    requires Holds(words, w) && i < w
    ensures Unpack(words[i / 64 := Or(words[i / 64], Mask(i % 64))], w) == Unpack(words, w)[i := true]
    ensures Unpack(words[i / 64 := AndNot(words[i / 64], Mask(i % 64))], w) == Unpack(words, w)[i := false]
  {
    var set' := words[i / 64 := Or(words[i / 64], Mask(i % 64))];
    var clear' := words[i / 64 := AndNot(words[i / 64], Mask(i % 64))];
    forall j | 0 <= j < w
      ensures Unpack(set', w)[j] == (j == i || Unpack(words, w)[j])
      ensures Unpack(clear', w)[j] == (j != i && Unpack(words, w)[j])
    {
      if j / 64 == i / 64 {
        UpdateEffect(words[i / 64], i % 64, j % 64);
        assert j % 64 == i % 64 <==> j == i;
      }
    }
  }

  // ----- the deduplicator -----

  lemma UpdateTwice<K, V>(m: map<K, V>, k: K, a: V, b: V)
    ensures m[k := a][k := b] == m[k := b]
  {
  }

  class Deduplicator {
    const windowSize: u32
    var clients: map<u16, ClientState>

    /** The windows as values, by client. */
    ghost var Windows: map<u16, Ring>
    /** Every object in use, with the client it belongs to: no two clients share one. */
    ghost var Owner: map<object, u16>

    ghost predicate Owns(id: u16)
      reads this, Owner.Keys
      requires id in clients
    {
      var cs := clients[id];
      && cs in Owner && Owner[cs] == id
      && cs.bitmap in Owner && Owner[cs.bitmap] == id
      && cs.Valid(windowSize)
      && id in Windows && cs.View(windowSize) == Windows[id]
    }

    ghost predicate Valid()
      reads this, Owner.Keys
    {
      && this !in Owner
      && 0 < windowSize <= TWO32 - 64
      && Windows.Keys == clients.Keys
      && forall id :: id in clients ==> Owns(id)
    }

    ghost function Repr(): set<object>
      reads this
    {
      {this} + Owner.Keys
    }

    /** A non-positive size selects the default; any other is stored as a uint32. */
    constructor (size: int)
      ensures fresh(Repr()) && Windows == map[]
      ensures Valid() <==> size <= 0 || 0 < size % TWO32 <= TWO32 - 64
      ensures windowSize == if size <= 0 then 4096 else size % TWO32
    {
      windowSize := if size <= 0 then DEFAULT_DEDUP_WINDOW else size % TWO32;
      clients, Windows, Owner := map[], map[], map[];
    }

    /** Adds an empty window for a client not seen before. */
    method AddClient(id: u16)
      requires Valid() && id !in clients
      modifies this
      ensures Valid() && fresh(Repr() - old(Repr()))
      ensures id in clients
      ensures Windows == old(Windows)[id := EmptyRing(windowSize)]
    {
      var cs := new ClientState(windowSize);
      clients, Windows := clients[id := cs], Windows[id := EmptyRing(windowSize)];
      Owner := Owner[cs := id][cs.bitmap := id];
      assert Owns(id);
      OthersKept(id);
    }

    method EnsureKnown(id: u16)
      requires Valid()
      modifies this
      ensures Valid() && fresh(Repr() - old(Repr()))
      ensures id in clients
      ensures Windows == old(Windows)[id := WindowOf(old(Windows), id, windowSize)]
    {
      if id !in clients {
        AddClient(id);
      }
    }

    /** The locked section of a call: the client's own state is checked and updated. */
    method CheckKnown(id: u16, number: u32) returns (dup: bool)
      requires Valid() && id in clients
      modifies Repr()
      ensures Valid() && Repr() == old(Repr())
      ensures dup == RingStep(old(Windows)[id], number).1
      ensures Windows == old(Windows)[id := RingStep(old(Windows)[id], number).0]
    {
      assert Owns(id);
      dup := clients[id].Check(number, windowSize);
      Windows := Windows[id := RingStep(Windows[id], number).0];
      OthersKept(id);
    }

    method IsDuplicate(id: u16, number: u32) returns (dup: bool)
      requires Valid()
      modifies Repr()
      ensures Valid() && fresh(Repr() - old(Repr()))
      ensures dup == RingStep(WindowOf(old(Windows), id, windowSize), number).1
      ensures Windows == old(Windows)[id := RingStep(WindowOf(old(Windows), id, windowSize), number).0]
    {
      ghost var was, r := Windows, WindowOf(Windows, id, windowSize);
      EnsureKnown(id);
      assert Windows[id] == r;
      dup := CheckKnown(id, number);
      UpdateTwice(was, id, r, RingStep(r, number).0);
    }

    /** Changing the state of one client leaves every other client's window alone. */
    twostate lemma OthersKept(id: u16)
      requires old(Valid()) && id in clients && clients == old(clients)[id := clients[id]]
      requires forall o: object :: o in old(Owner) ==> o in Owner && Owner[o] == old(Owner)[o]
      requires forall o: object :: o in old(Owner) && old(Owner)[o] != id ==> unchanged(o)
      requires Windows.Keys == clients.Keys
      requires forall j :: j in old(Windows) && j != id ==> Windows[j] == old(Windows)[j]
      ensures forall j :: j in clients && j != id ==> Owns(j)
    {
      forall j | j in clients && j != id
        ensures Owns(j)
      {
        assert old(Owns(j));
        assert unchanged(clients[j]) && unchanged(clients[j].bitmap);
      }
    }

    method Reset(id: u16)
      requires Valid()
      modifies this
      ensures Valid() && Repr() == old(Repr())
      ensures Windows == old(Windows) - {id}
    {
      clients, Windows := clients - {id}, Windows - {id};
    }
  }
}
