/**
 The bit arrays that record to which output buffers a symbol has been written, shared by the
 entities of a clique: a circular list linked by SET_clique (aset_CCcc/src/SET_additions.c,
 aset_CCcc/src/SET_symid.c).
 */
module CliqueBits {

  // ---------------------------------------------------------------- bytes and bits

  /** 1 << k in a byte */
  function Mask(k: nat): bv8
    requires k < 8
  {
    match k
    case 0 => 1 case 1 => 2 case 2 => 4 case 3 => 8
    case 4 => 16 case 5 => 32 case 6 => 64 case _ => 128
  }

  /** The masks are the powers of two. */
  lemma MaskIsShift(k: nat)
    requires k < 8
    ensures Mask(k) == (1 as bv8) << k
  {
  }

  lemma MasksApart(j: nat, k: nat)
    requires j < 8 && k < 8
    ensures Mask(j) & Mask(k) == if j == k then Mask(j) else 0
    ensures Mask(j) != 0
  {
  }

  predicate BitOn(b: bv8, k: nat)
    requires k < 8
  {
    b & Mask(k) != 0
  }

  lemma OrSetsOneBit(b: bv8, k: nat, j: nat)
    requires j < 8 && k < 8
    ensures BitOn(b | Mask(k), j) <==> j == k || BitOn(b, j)
  {
    MasksApart(k, j);
    OrWithin(b, Mask(k), Mask(j));
  }

  lemma OrWithin(b: bv8, m: bv8, n: bv8)
    ensures (b | m) & n != 0 <==> b & n != 0 || m & n != 0
  {
    assert (b | m) & n == (b & n) | (m & n);
  }

  /** ceil(count / 8) bytes are allocated for count buffers. */
  function BytesFor(count: nat): nat {
    (count + 7) / 8
  }

  /** No byte fewer would do. */
  lemma LeastBytes(count: nat)
    ensures count <= 8 * BytesFor(count) < count + 8
  {
  }

  lemma RoomForAll(count: nat, id: nat)
    requires id < count
    ensures id / 8 < BytesFor(count)
  {
  }

  /** The ids whose bits are set. */
  predicate HasBit(bits: array<bv8>, id: nat)
    reads bits
  {
    Member(bits[..], id)
  }

  predicate Member(bytes: seq<bv8>, id: nat) {
    id / 8 < |bytes| && BitOn(bytes[id / 8], id % 8)
  }

  lemma OrAddsMember(bytes: seq<bv8>, id: nat, byte: bv8, j: nat)
    requires id / 8 < |bytes| && byte == bytes[id / 8] | Mask(id % 8)
    ensures Member(bytes[id / 8 := byte], j) <==> j == id || Member(bytes, j)
  {
    if j / 8 == id / 8 {
      OrSetsOneBit(bytes[id / 8], id % 8, j % 8);
      SamePlace(id, j);
    }
  }

  lemma SamePlace(i: nat, j: nat)
    requires i / 8 == j / 8
    ensures i % 8 == j % 8 <==> i == j
  {
  }

  /** Switches one bit of the array on. */
  method SetBit(bits: array<bv8>, id: nat)
    requires id / 8 < bits.Length
    modifies bits
    ensures forall j: nat :: HasBit(bits, j) <==> j == id || old(HasBit(bits, j))
    ensures bits[..] == old(bits[..])[id / 8 := old(bits[id / 8]) | ((1 as bv8) << (id % 8))]
  {
    MaskIsShift(id % 8);
    ghost var bytes := bits[..];
    bits[id / 8] := bits[id / 8] | Mask(id % 8);
    assert bits[..] == bytes[id / 8 := bits[id / 8]];
    forall j: nat ensures HasBit(bits, j) <==> j == id || Member(bytes, j) {
      OrAddsMember(bytes, id, bits[id / 8], j);
    }
  }

  /** A cleared array with room for count buffers */
  method ClearedBits(count: nat) returns (bits: array<bv8>)
    ensures fresh(bits) && bits.Length == BytesFor(count)
    ensures forall j: nat :: !HasBit(bits, j)
  {
    bits := new bv8[BytesFor(count)](_ => 0);
  }

  // ---------------------------------------------------------------- members of a clique

  class Entry {
    var clique: Entry?          // SET_clique
    var bits: array?<bv8>       // SET_outbuf_bit_arr
    var symid: nat              // SET_symid, 0 while unassigned
    var written: bool           // SET_SYM_written

    /** An entry prefix starts as a clique of its own. */
    constructor ()
      ensures fresh(this) && Ring([this]) && Agree([this])
      ensures bits == null && symid == 0 && !written
    {
      clique, bits, symid, written := this, null, 0, false;
    }
  }

  /** is_output_buffer_bit_set */
  predicate IsSet(e: Entry, id: nat)
    reads e, e.bits
  {
    e.bits != null && HasBit(e.bits, id)
  }

  /** The bytes that the entity's array has, or gets when it has none. */
  function Bytes(e: Entry, count: nat): nat
    reads e
  {
    if e.bits == null then BytesFor(count) else e.bits.Length
  }

  /**
   set_output_buffer_bit: count is the number of files when the array is allocated.
   inside tells whether the byte written lies in the array.
   */
  method SetOutputBufferBit(e: Entry, id: nat, count: nat) returns (initialized: bool, inside: bool)
    modifies e`bits, e.bits
    ensures initialized <==> old(e.bits) == null
    ensures inside <==> id / 8 < old(Bytes(e, count))
    ensures initialized && id < count ==> inside
    ensures e.bits != null
    ensures if initialized then fresh(e.bits) && e.bits.Length == BytesFor(count) else e.bits == old(e.bits)
    ensures inside ==> forall j: nat :: IsSet(e, j) <==> j == id || old(IsSet(e, j))
  {
    initialized := false;
    if e.bits == null {
      e.bits := ClearedBits(count);
      initialized := true;
    }
    inside := id / 8 < e.bits.Length;
    if id < count { RoomForAll(count, id); }
    if inside { SetBit(e.bits, id); }
  }

  // ---------------------------------------------------------------- the ring

  /** The members in the order the links visit them, closing on the first. */
  ghost predicate Ring(ring: seq<Entry>)
    reads ring
  {
    && |ring| > 0
    && (forall i, k :: 0 <= i < k < |ring| ==> ring[i] != ring[k])
    && (forall i :: 0 <= i < |ring| ==> ring[i].clique == ring[After(ring, i)])
  }

  function After(ring: seq<Entry>, i: nat): nat {
    if i == |ring| - 1 then 0 else i + 1
  }

  /** A link leads on round the ring, and back to the first member only from the last. */
  lemma NextMember(ring: seq<Entry>, k: nat)
    requires Ring(ring) && k < |ring|
    ensures ring[k].clique == ring[0] <==> k == |ring| - 1
    ensures k < |ring| - 1 ==> ring[k].clique == ring[k + 1]
  {
    assert ring[k].clique == ring[After(ring, k)];
  }

  /** Every member carries the same array, or none, and the same symbol number. */
  ghost predicate Agree(ring: seq<Entry>)
    reads ring
  {
    forall i :: 0 <= i < |ring| ==> SameMarks(ring[i], ring[0])
  }

  predicate SameMarks(e: Entry, f: Entry)
    reads e, f
  {
    Marks(e) == Marks(f)
  }

  /** What a clique shares */
  function Marks(e: Entry): (array?<bv8>, nat, bool)
    reads e
  {
    (e.bits, e.symid, e.written)
  }

  /** Any member can be taken as the first. */
  lemma Rotated(ring: seq<Entry>, k: nat)
    requires Ring(ring) && k < |ring|
    ensures Ring(ring[k..] + ring[..k])
    ensures Agree(ring) ==> Agree(ring[k..] + ring[..k])
  {
    var turned := ring[k..] + ring[..k];
    assert forall i :: 0 <= i < |ring| ==> turned[i] == ring[if i + k < |ring| then i + k else i + k - |ring|];
  }

  /** Following the links from a member of both rings leads to the first of one of them. */
  lemma {:induction false} FirstIsShared(ring: seq<Entry>, other: seq<Entry>, k: nat)
    requires Ring(ring) && Ring(other) && k < |ring| && ring[k] in other
    ensures ring[0] in other
    decreases |ring| - k
  {
    var m :| 0 <= m < |other| && other[m] == ring[k];
    assert ring[After(ring, k)] == other[After(other, m)];
    if k < |ring| - 1 { FirstIsShared(ring, other, k + 1); }
  }

  /** Two rings that meet anywhere hold each other's first member. */
  lemma MeetingRings(ring: seq<Entry>, other: seq<Entry>)
    requires Ring(ring) && Ring(other)
    ensures (exists e :: e in ring && e in other) <==> ring[0] in other
  {
    forall e | e in ring && e in other ensures ring[0] in other {
      var k :| 0 <= k < |ring| && ring[k] == e;
      FirstIsShared(ring, other, k);
    }
  }

  /** Members of an agreeing ring report the same bits. */
  lemma AgreeingBits(ring: seq<Entry>, m: Entry, id: nat)
    requires Agree(ring) && m in ring
    ensures IsSet(m, id) <==> IsSet(ring[0], id)
  {
  }

  // ---------------------------------------------------------------- arrays that are given up

  /** What a walk frees that gives the first n members the array keep: their own arrays, if they have others. */
  function Frees(arrays: seq<array?<bv8>>, keep: array?<bv8>, n: nat): (freed: seq<array<bv8>>)
    requires n <= |arrays|
  {
    if n == 0 then []
    else
      Frees(arrays, keep, n - 1) + Own(arrays[n - 1], keep)
  }

  function Own(own: array?<bv8>, keep: array?<bv8>): seq<array<bv8>> {
    if own == null || own == keep then [] else [own]
  }

  /** Members that share an array give it up one after the other. */
  lemma {:induction false} SharedFrees(arrays: seq<array?<bv8>>, keep: array?<bv8>, n: nat)
    requires n <= |arrays| && forall i :: 0 <= i < n ==> arrays[i] == arrays[0]
    ensures |Frees(arrays, keep, n)| == if n == 0 || arrays[0] == null || arrays[0] == keep then 0 else n
    ensures forall i :: 0 <= i < |Frees(arrays, keep, n)| ==> Frees(arrays, keep, n)[i] == arrays[0]
  {
    if n > 0 { SharedFrees(arrays, keep, n - 1); }
  }

  predicate OnceEach(freed: seq<array<bv8>>) {
    forall i, k :: 0 <= i < k < |freed| ==> freed[i] != freed[k]
  }

  /** So a walk round an agreeing ring frees no array twice exactly if it frees none or has one member. */
  lemma FreedOnceIff(arrays: seq<array?<bv8>>, keep: array?<bv8>)
    requires forall i :: 0 <= i < |arrays| ==> arrays[i] == arrays[0]
    ensures OnceEach(Frees(arrays, keep, |arrays|)) <==> |arrays| <= 1 || arrays[0] == null || arrays[0] == keep
  {
    SharedFrees(arrays, keep, |arrays|);
    var freed := Frees(arrays, keep, |arrays|);
    if |freed| > 1 { assert freed[0] == freed[1]; }
  }

  /** The arrays of the members, in ring order */
  ghost predicate Arrays(ring: seq<Entry>, arrays: seq<array?<bv8>>)
    reads ring
  {
    |arrays| == |ring| && forall i :: 0 <= i < |ring| ==> ring[i].bits == arrays[i]
  }

  /** The first k members have the array, those behind still have their own. */
  ghost predicate Shared(ring: seq<Entry>, k: nat, outbufp: array<bv8>, arrays: seq<array?<bv8>>)
    reads ring
  {
    |arrays| == |ring| && forall i :: 0 <= i < |ring| ==> ring[i].bits == if i < k then outbufp else arrays[i]
  }

  method ShareNext(e: Entry, ghost ring: seq<Entry>, ghost k: nat, outbufp: array<bv8>, ghost arrays: seq<array?<bv8>>)
    returns (freed: seq<array<bv8>>)
    requires k < |ring| && ring[k] == e && Ring(ring) && Shared(ring, k, outbufp, arrays)
    modifies e`bits
    ensures Shared(ring, k + 1, outbufp, arrays) && freed == Own(arrays[k], outbufp)
  {
    freed := Own(e.bits, outbufp);
    e.bits := outbufp;
  }

  /** The walk of set_outbuf_bit_of_clique: gives every member the array, visiting each once. */
  method ShareBits(e: Entry, ghost ring: seq<Entry>, ghost arrays: seq<array?<bv8>>, outbufp: array<bv8>)
    returns (freed: seq<array<bv8>>)
    requires Ring(ring) && ring[0] == e && Arrays(ring, arrays)
    modifies ring`bits
    ensures forall i :: 0 <= i < |ring| ==> ring[i].bits == outbufp
    ensures freed == Frees(arrays, outbufp, |ring|)
  {
    var cep := e;
    ghost var k := 0;
    freed := ShareNext(cep, ring, k, outbufp, arrays);
    while cep.clique != e
      invariant k < |ring| && cep == ring[k]
      invariant Shared(ring, k + 1, outbufp, arrays)
      invariant freed == Frees(arrays, outbufp, k + 1)
      decreases |ring| - k
    {
      NextMember(ring, k);
      cep := cep.clique;
      k := k + 1;
      var own := ShareNext(cep, ring, k, outbufp, arrays);
      freed := freed + own;
    }
    NextMember(ring, k);
  }

  lemma {:induction false} RingStaysInside(ring: seq<Entry>, other: seq<Entry>, k: nat)
    requires Ring(ring) && Ring(other) && k < |ring| && ring[0] in other
    ensures ring[k] in other
  {
    if k > 0 {
      RingStaysInside(ring, other, k - 1);
      var m :| 0 <= m < |other| && other[m] == ring[k - 1];
      assert ring[After(ring, k - 1)] == other[After(other, m)];
    }
  }

  /** Rings that meet have the same members. */
  lemma SameMembers(ring: seq<Entry>, other: seq<Entry>)
    requires Ring(ring) && Ring(other)
    requires exists e :: e in ring && e in other
    ensures forall e :: e in ring <==> e in other
  {
    MeetingRings(ring, other);
    MeetingRings(other, ring);
    forall k | 0 <= k < |ring| ensures ring[k] in other { RingStaysInside(ring, other, k); }
    forall k | 0 <= k < |other| ensures other[k] in ring { RingStaysInside(other, ring, k); }
  }

  /** An agreeing ring has nothing to give up when its first array has just been allocated. */
  lemma {:induction false} NothingFreed(arrays: seq<array?<bv8>>, keep: array<bv8>, n: nat)
    requires n <= |arrays| && forall i :: 0 <= i < n ==> arrays[i] == if i == 0 then keep else null
    ensures Frees(arrays, keep, n) == []
  {
    if n > 0 { NothingFreed(arrays, keep, n - 1); }
  }

  /**
   set_outbuf_bit_of_clique: whichever member is named, all of them then report that bit and the
   bits they reported before, provided the bit lies inside the array; and no array is freed.
   */
  method SetOutbufBitOfClique(e: Entry, ghost ring: seq<Entry>, id: nat, count: nat)
    returns (inside: bool, freed: seq<array<bv8>>)
    requires Ring(ring) && Agree(ring) && ring[0] == e
    modifies ring`bits, e.bits
    ensures Ring(ring) && Agree(ring)
    ensures inside <==> id / 8 < old(Bytes(e, count))
    ensures e.bits != null && (old(e.bits) != null ==> e.bits == old(e.bits))
    ensures old(e.bits) == null ==> fresh(e.bits) && e.bits.Length == BytesFor(count)
    ensures inside ==>
      forall m, j: nat {:trigger IsSet(m, j)} :: m in ring ==> (IsSet(m, j) <==> j == id || old(IsSet(m, j)))
    ensures freed == []
  {
    var initialized;
    initialized, inside := SetOutputBufferBit(e, id, count);
    freed := [];
    label marked:
    if initialized {
      var outbufp := e.bits;
      ghost var arrays := seq(|ring|, i requires 0 <= i < |ring| => if i == 0 then outbufp else null);
      NothingFreed(arrays, outbufp, |ring|);
      freed := ShareBits(e, ring, arrays, outbufp);
    }
    if inside {
      forall m, j: nat | m in ring ensures IsSet(m, j) <==> j == id || old(IsSet(m, j)) {
        assert IsSet(e, j) <==> old@marked(IsSet(e, j));
        AgreeingBits(ring, m, j);
        assert old(IsSet(m, j)) <==> old(IsSet(e, j));
      }
    }
  }

  // ---------------------------------------------------------------- joining cliques

  /** The search for the link that closes c's ring; gives up when it meets j. */
  method FindLast(c: Entry, j: Entry, ghost ring: seq<Entry>) returns (found: bool, pce: Entry)
    requires Ring(ring) && ring[0] == c
    ensures found <==> j in ring
    ensures !found ==> pce == ring[|ring| - 1]
  {
    pce := c;
    ghost var k := 0;
    while pce != j && pce.clique != c
      invariant k < |ring| && pce == ring[k]
      invariant j !in ring[..k]
      decreases |ring| - k
    {
      assert pce.clique == ring[After(ring, k)];
      pce := pce.clique;
      k := k + 1;
    }
    found := pce == j;
    assert pce.clique == ring[After(ring, k)];
  }

  /** One member takes the marks; its own array is freed if it has another. */
  method TakeMarks(e: Entry, symid: nat, written: bool, bits: array?<bv8>) returns (freed: seq<array<bv8>>)
    modifies e`bits, e`symid, e`written
    ensures Marks(e) == (bits, symid, written) && freed == Own(old(e.bits), bits)
  {
    freed := Own(e.bits, bits);
    e.symid, e.written, e.bits := symid, written, bits;
  }

  /** The members up to k carry the marks, those behind still have their own arrays. */
  ghost predicate Half(ring: seq<Entry>, k: nat, marks: (array?<bv8>, nat, bool), arrays: seq<array?<bv8>>)
    reads ring
  {
    && |arrays| == |ring|
    && (forall i :: 0 <= i < |ring| ==> if i < k then Marks(ring[i]) == marks else ring[i].bits == arrays[i])
  }

  method ConformNext(e: Entry, ghost ring: seq<Entry>, ghost k: nat, symid: nat, written: bool, bits: array?<bv8>,
                     ghost arrays: seq<array?<bv8>>)
    returns (freed: seq<array<bv8>>)
    requires k < |ring| && ring[k] == e && Ring(ring) && Half(ring, k, (bits, symid, written), arrays)
    modifies e`bits, e`symid, e`written
    ensures Half(ring, k + 1, (bits, symid, written), arrays) && freed == Own(arrays[k], bits) && Ring(ring)
  {
    freed := TakeMarks(e, symid, written, bits);
  }

  /** The walk round the joining ring that gives each member the marks of ce, and gives up their own arrays. */
  method Conform(j: Entry, ce: Entry, ghost ring: seq<Entry>, ghost arrays: seq<array?<bv8>>)
    returns (pje: Entry, freed: seq<array<bv8>>)
    requires Ring(ring) && ring[0] == j && ce !in ring && Arrays(ring, arrays)
    modifies ring`bits, ring`symid, ring`written
    ensures pje == ring[|ring| - 1]
    ensures forall i :: 0 <= i < |ring| ==> Marks(ring[i]) == Marks(ce)
    ensures freed == Frees(arrays, ce.bits, |ring|)
  {
    pje := j;
    ghost var k, marks := 0, Marks(ce);
    freed := ConformNext(pje, ring, k, ce.symid, ce.written, ce.bits, arrays);
    while pje.clique != j
      invariant k < |ring| && pje == ring[k]
      invariant Ring(ring) && Half(ring, k + 1, marks, arrays) && Marks(ce) == marks
      invariant freed == Frees(arrays, marks.0, k + 1)
      decreases |ring| - k
    {
      NextMember(ring, k);
      pje := pje.clique;
      k := k + 1;
      var own := ConformNext(pje, ring, k, ce.symid, ce.written, ce.bits, arrays);
      freed := freed + own;
    }
    NextMember(ring, k);
  }

  ghost predicate Apart(ring: seq<Entry>, other: seq<Entry>) {
    forall i, k :: 0 <= i < |ring| && 0 <= k < |other| ==> ring[i] != other[k]
  }

  /** Crossing the last links of two separate rings makes one ring of both. */
  method Splice(c: Entry, pce: Entry, j: Entry, pje: Entry, ghost cs: seq<Entry>, ghost js: seq<Entry>)
    requires Ring(cs) && Ring(js) && Apart(cs, js)
    requires c == cs[0] && pce == cs[|cs| - 1] && j == js[0] && pje == js[|js| - 1]
    modifies pce`clique, pje`clique
    ensures Ring(cs + js)
  {
    pce.clique := j;
    pje.clique := c;
    ghost var both := cs + js;
    forall i, k | 0 <= i < k < |both| ensures both[i] != both[k] {
      if i < |cs| <= k { assert both[i] == cs[i] && both[k] == js[k - |cs|]; }
    }
    forall i | 0 <= i < |both| ensures both[i].clique == both[After(both, i)] {
      if i < |cs| - 1 {
        assert cs[i].clique == cs[After(cs, i)];
      } else if |cs| <= i < |both| - 1 {
        assert js[i - |cs|].clique == js[After(js, i - |cs|)];
      }
    }
  }

  /** What joining frees: the array of the side that gives its marks up, once for every member of its ring. */
  ghost predicate GivesUp(freed: seq<array<bv8>>, members: nat, own: array?<bv8>, keep: array?<bv8>) {
    if own == null || own == keep then freed == []
    else |freed| == members && forall i :: 0 <= i < members ==> freed[i] == own
  }

  /** Two separate rings: the members of js take c's marks, and the links are crossed. */
  method JoinApart(j: Entry, c: Entry, pce: Entry, ghost js: seq<Entry>, ghost cs: seq<Entry>)
    returns (freed: seq<array<bv8>>)
    requires Ring(js) && Ring(cs) && Apart(cs, js) && Agree(js) && Agree(cs)
    requires js[0] == j && cs[0] == c && pce == cs[|cs| - 1]
    modifies js, cs
    ensures Ring(cs + js) && forall m :: m in cs + js ==> Marks(m) == old(Marks(c))
    ensures GivesUp(freed, |js|, old(j.bits), old(c.bits))
  {
    var own := j.bits;
    ghost var arrays := seq(|js|, _ => own);
    SharedFrees(arrays, c.bits, |js|);
    assert c !in js by { assert forall k :: 0 <= k < |js| ==> cs[0] != js[k]; }
    var pje;
    pje, freed := Conform(j, c, js, arrays);
    Splice(c, pce, j, pje, cs, js);
  }

  /** The part of join_to_clique after the swap: c keeps its marks. */
  method JoinInto(j: Entry, c: Entry, ghost js: seq<Entry>, ghost cs: seq<Entry>)
    returns (ghost whole: seq<Entry>, freed: seq<array<bv8>>)
    requires Ring(js) && Ring(cs) && Agree(js) && Agree(cs) && js[0] == j && cs[0] == c
    modifies js, cs
    ensures Ring(whole) && whole == if j in cs then cs else cs + js
    ensures forall m :: m in whole ==> Marks(m) == old(Marks(c))
    ensures j in cs ==> forall m :: m in cs ==> m.clique == old(m.clique)
    ensures forall e :: e in whole <==> e in js || e in cs
    ensures if j in cs then freed == [] else GivesUp(freed, |js|, old(j.bits), old(c.bits))
  {
    whole := cs;
    freed := [];
    MeetingRings(js, cs);
    MeetingRings(cs, js);
    var found, pce := FindLast(c, j, cs);
    if found {
      SameMembers(js, cs);
    } else {
      forall i, k | 0 <= i < |cs| && 0 <= k < |js| ensures cs[i] != js[k] {
        assert cs[i] in cs && js[k] in js;
      }
      freed := JoinApart(j, c, pce, js, cs);
      whole := cs + js;
    }
  }

  /** Which of the two keeps its marks: the clique, unless only the joiner has a symbol number. */
  predicate JoinerKeeps(joiner: Entry, clique: Entry)
    reads joiner, clique
  {
    clique.symid == 0 && joiner.symid != 0
  }

  /**
   join_to_clique. Two cliques become one, all of whose members carry the marks of the one that
   keeps them; members of one clique already are left as they are.
   */
  method JoinToClique(joiner: Entry, clique: Entry, ghost js: seq<Entry>, ghost cs: seq<Entry>)
    returns (ghost whole: seq<Entry>, freed: seq<array<bv8>>)
    requires Ring(js) && Ring(cs) && Agree(js) && Agree(cs) && js[0] == joiner && cs[0] == clique
    modifies js, cs
    ensures Ring(whole) && Agree(whole)
    ensures forall e :: e in whole <==> e in js || e in cs
    ensures forall m :: m in whole ==> Marks(m) == old(Marks(if JoinerKeeps(joiner, clique) then joiner else clique))
    ensures forall m :: m in whole ==>
      && m.symid == (if old(clique.symid) != 0 then old(clique.symid) else old(joiner.symid))
      && (if old(clique.symid) != 0 || old(joiner.symid) == 0
          then m.bits == old(clique.bits) && m.written == old(clique.written)
          else m.bits == old(joiner.bits) && m.written == old(joiner.written))
    ensures joiner in cs ==> freed == [] && forall m :: m in cs ==> m.clique == old(m.clique)
    ensures joiner !in cs ==>
      var (members, lost, kept) :=
        if old(clique.symid) != 0 || old(joiner.symid) == 0 then (|js|, old(joiner.bits), old(clique.bits))
        else (|cs|, old(clique.bits), old(joiner.bits));
      if lost == null || lost == kept then freed == []
      else |freed| == members && forall i :: 0 <= i < members ==> freed[i] == lost
  {
    if clique.symid == 0 && joiner.symid != 0 {
      MeetingRings(js, cs);
      MeetingRings(cs, js);
      if joiner in cs { SameMembers(js, cs); }
      whole, freed := JoinInto(clique, joiner, cs, js);
    } else {
      whole, freed := JoinInto(joiner, clique, js, cs);
    }
  }

  /** Two fresh entities, joined and then marked */
  method MarkedPair() returns (a: Entry, b: Entry)
    ensures fresh({a, b}) && Ring([a, b]) && Agree([a, b])
    ensures a.bits != null && a.symid == 0
  {
    a := new Entry();
    b := new Entry();
    ghost var pair, freed := JoinInto(b, a, [b], [a]);
    assert pair == [a, b] && Marks(pair[0]) == Marks(pair[1]) == (null, 0, false);
    var inside, none := SetOutbufBitOfClique(a, [a, b], 0, 1);
  }

  /** Joined to a third entity, such a pair has its array freed for each of the two. */
  method SharedArrayFreedTwice() returns (freed: seq<array<bv8>>)
    ensures |freed| == 2 && freed[0] == freed[1]
  {
    var a, b := MarkedPair();
    var c := new Entry();
    ghost var all;
    all, freed := JoinToClique(a, c, [a, b], [c]);
  }
}
