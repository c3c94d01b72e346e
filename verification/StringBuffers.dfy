/**
 The extensible string buffer of aset_CCcc/src/SET_additions.c.  One structure serves three
 purposes that differ only in what happens when it is full: its contents go to a file
 (Flush), it starts over (Wrap), or a new block is allocated and the old one stays (Heap).
 Pointers into a block are offsets; reading and writing a block goes through a real array.
 */
module StringBuffers {
  import opened Decimal

  datatype Policy = Flush | Wrap | Heap

  /** buf_size, cur_str and next_free_byte of a buffer. */
  datatype Geometry = Geometry(policy: Policy, initSize: nat, size: nat, cur: nat, next: nat)
  {
    ghost predicate Ok() {
      32 < initSize <= size && cur <= next <= size
    }

    /** Bytes of the string under construction. */
    function Unfinished(): int {
      next - cur
    }

    /** next_free_byte + need > last_byte_of_buf is false. */
    predicate Fits(need: nat) {
      next + need <= size - 1
    }

    /** init_string_buffer on an existing block. */
    function Reinit(): Geometry
      requires cur <= next
    {
      var size' := if cur == 0 then 2 * size else if Unfinished() < initSize / 2 then initSize else size;
      Geometry(policy, initSize, size', 0, next - cur)
    }

    /** The overflow handler of each policy. */
    function Overflow(): Geometry
      requires cur <= next
    {
      match policy
      case Flush => Geometry(policy, initSize, size, 0, 0)
      case Heap => Reinit()
      case Wrap => if cur == 0 then Reinit() else Geometry(policy, initSize, size, 0, next - cur)
    }

    /** The handler would copy overlapping bytes with memcpy. */
    predicate Overlaps() {
      policy == Wrap && 0 < cur < Unfinished()
    }

    /** The buffer once it has been made to double until its block is as long as the piece. */
    function Doubled(len: nat): Geometry
      requires size > 0
      decreases len - size
    {
      if len <= size then this else Geometry(policy, initSize, 2 * size, cur, next).Doubled(len)
    }

    /** The size of the block once the handler has run. */
    function NewSize(): nat
      requires cur <= next
    {
      if policy == Flush then size
      else if cur == 0 then 2 * size
      else if policy == Heap && Unfinished() < initSize / 2 then initSize
      else size
    }

    /** A piece is too long if some doubling of the block holds it, but not the unfinished string with it. */
    ghost predicate TooLong(len: nat)
      requires cur <= next
    {
      policy != Flush && SomeDoubling(NewSize(), len, Unfinished() + len)
    }

    /** The store of add_to_string_with_len stays inside the block. */
    ghost predicate Roomy(len: nat)
      requires cur <= next
    {
      Fits(len) || (!Overlaps() && !TooLong(len))
    }

    /** The same for the functions that add one, two or three characters, or reserve 32 bytes. */
    predicate RoomyFew(reserve: nat, stored: nat)
      requires cur <= next
    {
      Fits(reserve) || (!Overlaps() && (if policy == Flush then 0 else Unfinished()) + stored <= NewSize())
    }

    /** The buffer after a piece of any length has been added. */
    function Longer(len: nat): Geometry
      requires cur <= next && size > 0 && initSize > 0
    {
      if Fits(len) then this.(next := next + len)
      else var g := Overflow().Doubled(len); g.(next := g.next + len)
    }

    /** The buffer after one of the fixed-length functions. */
    function LongerFew(reserve: nat, stored: nat): Geometry
      requires cur <= next
    {
      if Fits(reserve) then this.(next := next + stored)
      else var g := Overflow(); g.(next := g.next + stored)
    }
  }

  function Pow2(k: nat): (p: nat)
    ensures p > 0
  {
    if k == 0 then 1 else 2 * Pow2(k - 1)
  }

  /** Some number of doublings of the size is at least low and below high. */
  ghost predicate SomeDoubling(size: nat, low: int, high: int) {
    exists k: nat :: low <= Pow2(k) * size < high
  }

  // ---------------------------------------------------------------- when there is room

  lemma {:induction false} DoubledFits(g: Geometry, len: nat)
    requires g.size > 0
    ensures g.Doubled(len).size >= len && g.Doubled(len).size >= g.size
    ensures g.Doubled(len) == g.(size := g.Doubled(len).size)
    decreases len - g.size
  {
    if len > g.size { DoubledFits(g.(size := 2 * g.size), len); }
  }

  /** The doubling stops at the first power of two that will do. */
  lemma {:induction false} DoubledTimes(g: Geometry, len: nat) returns (k: nat)
    requires g.size > 0
    ensures g.Doubled(len).size == Pow2(k) * g.size
    ensures k > 0 ==> Pow2(k - 1) * g.size < len
    decreases len - g.size
  {
    if len <= g.size {
      k := 0;
    } else {
      var more := DoubledTimes(g.(size := 2 * g.size), len);
      k := more + 1;
      Twice(Pow2(more), g.size);
      if more > 0 { Twice(Pow2(more - 1), g.size); }
    }
  }

  lemma Twice(p: nat, size: nat)
    ensures p * (2 * size) == 2 * p * size
  {
  }

  lemma {:induction false} PowersGrow(j: nat, k: nat, size: nat)
    requires j <= k
    ensures Pow2(j) * size <= Pow2(k) * size
    decreases k
  {
    if j < k {
      PowersGrow(j, k - 1, size);
      assert Pow2(k) * size == 2 * (Pow2(k - 1) * size);
    }
  }

  /** What the handler and the doubling leave has room exactly if no doubling falls in between. */
  lemma DoubledRoomIff(g: Geometry, len: nat, unfinished: nat)
    requires g.size > 0
    ensures unfinished + len <= g.Doubled(len).size <==> !SomeDoubling(g.size, len, unfinished + len)
  {
    var k := DoubledTimes(g, len);
    DoubledFits(g, len);
    forall j: nat | len <= Pow2(j) * g.size < unfinished + len ensures Pow2(k) * g.size < unfinished + len {
      if j < k { PowersGrow(j, k - 1, g.size); } else { PowersGrow(k, j, g.size); }
    }
    if g.Doubled(len).size < unfinished + len {
      assert len <= Pow2(k) * g.size < unfinished + len;
    }
  }

  lemma SizeAfter(g: Geometry)
    requires g.Ok()
    ensures g.Overflow().size == g.NewSize() && g.Overflow().next == if g.policy == Flush then 0 else g.Unfinished()
  {
  }

  /** The handler's work on numbers agrees with the closed form. */
  lemma RoomyIff(g: Geometry, len: nat)
    requires g.Ok()
    ensures g.Roomy(len) <==>
      g.Fits(len) || (!g.Overlaps() && g.Overflow().next + len <= g.Overflow().Doubled(len).size)
  {
    var o := g.Overflow();
    DoubledFits(o, len);
    if g.policy != Flush && !g.Overlaps() {
      SizeAfter(g);
      DoubledRoomIff(o, len, o.next);
    }
  }

  /** A flushing buffer takes text of any length. */
  lemma FlushAlwaysRoomy(g: Geometry, len: nat)
    requires g.Ok() && g.policy == Flush
    ensures g.Roomy(len)
    ensures forall stored: nat :: stored <= 32 ==> g.RoomyFew(len, stored) && g.RoomyFew(32, stored)
  {
  }

  /** A heap buffer takes a piece if it and the unfinished string stay below the initial size. */
  lemma HeapRoomy(g: Geometry, len: nat)
    requires g.Ok() && g.policy == Heap && g.Unfinished() + len < g.initSize
    ensures g.Roomy(len) && forall stored: nat :: stored <= len ==> g.RoomyFew(len, stored)
  {
    forall k: nat ensures Pow2(k) * g.NewSize() >= g.initSize { PowersGrow(0, k, g.NewSize()); }
  }

  /** The places of n bytes from start on */
  function Places(start: nat, n: nat): seq<nat> {
    seq(n, i => start + i)
  }

  /** The handler's memcpy overlaps exactly if some byte of the string lies where another is to go. */
  lemma OverlapsIff(g: Geometry)
    requires g.Ok()
    ensures var n := g.next - g.cur;
      g.Overlaps() <==>
        g.policy == Wrap && g.cur != 0
        && exists i, j :: 0 <= i < n && 0 <= j < n && Places(g.cur, n)[i] == Places(0, n)[j]
  {
    var n := g.next - g.cur;
    if g.Overlaps() { assert Places(g.cur, n)[0] == Places(0, n)[g.cur]; }
  }

  /** A wrapping buffer takes a piece if it and the unfinished string are at most half of it. */
  lemma WrapRoomy(g: Geometry, len: nat)
    requires g.Ok() && g.policy == Wrap && g.Unfinished() + len <= (g.size - 1) / 2
    ensures g.Roomy(len) && forall stored: nat :: stored <= len ==> g.RoomyFew(len, stored)
    ensures !g.Fits(len) ==> !g.Overlaps()
  {
    forall k: nat ensures Pow2(k) * g.NewSize() >= g.size { PowersGrow(0, k, g.NewSize()); }
  }

  /** Ten unfinished bytes and a piece of 999995: the doubling loop looks at the piece alone. */
  lemma HeapCanOverrun()
    ensures var g := Geometry(Heap, 500000, 500000, 0, 10); g.Ok() && !g.Roomy(999995)
  {
    var g := Geometry(Heap, 500000, 500000, 0, 10);
    assert 999995 <= Pow2(0) * g.NewSize() < g.Unfinished() + 999995;
  }

  // ---------------------------------------------------------------- the buffer

  /** A finished string: the pointer terminate_string returned, and what it pointed to then. */
  datatype Issued = Issued(block: array<char>, start: nat, text: seq<char>)

  ghost predicate Intact(s: Issued)
    reads s.block
  {
    s.start + |s.text| <= s.block.Length && s.block[s.start..s.start + |s.text|] == s.text
  }

  class StringBuffer {
    const policy: Policy
    const initSize: nat
    const terminator: char
    var buf: array<char>
    var curStr: nat
    var nextFree: nat
    var file: seq<char>               // what write() has delivered to the output file

    ghost var added: seq<char>        // everything ever added, terminators included
    ghost var cur: seq<char>          // what was added since the last terminator
    ghost var issued: seq<Issued>     // the strings a heap buffer has returned
    ghost var live: set<array<char>>  // blocks allocated and not freed

    ghost function Geo(): Geometry
      reads this
    {
      Geometry(policy, initSize, buf.Length, curStr, nextFree)
    }

    ghost predicate Valid()
      reads this, live
    {
      && Geo().Ok() && buf in live
      && match policy
         case Flush => file + buf[..nextFree] == added
         case Wrap => buf[curStr..nextFree] == cur
         case Heap => buf[curStr..nextFree] == cur && forall s :: s in issued ==> Safe(s)
    }

    /** A finished string is unchanged, lies in a block that is not freed, and out of the way of new text. */
    ghost predicate Safe(s: Issued)
      reads this, live
    {
      s.block in live && Intact(s) && s.text != [] && (s.block == buf ==> s.start + |s.text| <= curStr)
    }

    /** create and init_string_buffer on a buffer without a block */
    constructor (policy: Policy, initSize: nat, terminator: char)
      requires initSize > 32
      ensures Valid() && fresh(live)
      ensures this.policy == policy && this.initSize == initSize && this.terminator == terminator
      ensures added == [] && cur == [] && issued == [] && file == []
    {
      this.policy, this.initSize, this.terminator := policy, initSize, terminator;
      var block := new char[initSize];
      buf, curStr, nextFree, file := block, 0, 0, [];
      added, cur, issued, live := [], [], [], {block};
    }

    /** init_string_buffer on a buffer that has a block */
    method InitStringBuffer()
      requires Valid() && (policy == Wrap || policy == Flush ==> curStr == 0)
      modifies this
      ensures Valid() && Geo() == old(Geo()).Reinit()
      ensures buf.Length == if old(curStr) == 0 then 2 * old(buf.Length)
                            else if old(nextFree) - old(curStr) < initSize / 2 then initSize else old(buf.Length)
      ensures live == old(live) - (if old(curStr) == 0 then {old(buf)} else {}) + {buf}
      ensures added == old(added) && cur == old(cur) && issued == old(issued) && file == old(file)
      ensures fresh(buf) && fresh(live - old(live))
    {
      var freeOldBuf, bufSize := false, buf.Length;
      var curStrLen := nextFree - curStr;
      if curStr == 0 {
        bufSize := bufSize * 2;
        freeOldBuf := true;
      } else if curStrLen < initSize / 2 {
        bufSize := initSize;
      }
      var newBuf := NewBlock(bufSize);
      MoveTo(newBuf, freeOldBuf);
    }

    /** A block with a copy of the unfinished string at its front */
    method NewBlock(size: nat) returns (newBuf: array<char>)
      requires Valid() && nextFree - curStr <= size
      ensures fresh(newBuf) && newBuf.Length == size && newBuf[..nextFree - curStr] == buf[curStr..nextFree]
    {
      newBuf := new char[size];
      forall i | 0 <= i < nextFree - curStr { newBuf[i] := buf[curStr + i]; }
    }

    /** Makes the new block the buffer's own; the old one is freed only if no finished string is in it. */
    method MoveTo(newBuf: array<char>, freeOldBuf: bool)
      requires Valid() && newBuf !in live && newBuf.Length >= initSize
      requires nextFree - curStr <= newBuf.Length && newBuf[..nextFree - curStr] == buf[curStr..nextFree]
      requires freeOldBuf || policy != Heap ==> curStr == 0
      modifies this`buf, this`curStr, this`nextFree, this`live
      ensures Valid() && buf == newBuf
      ensures Geo() == Geometry(policy, initSize, newBuf.Length, 0, old(nextFree) - old(curStr))
      ensures live == old(live) - (if freeOldBuf then {old(buf)} else {}) + {newBuf}
    {
      if freeOldBuf { live := live - {buf}; }
      live := live + {newBuf};
      buf, curStr, nextFree := newBuf, 0, nextFree - curStr;
      if policy == Heap {
        forall s | s in issued ensures Safe(s) { SafeInNewBlock(s); }
      }
    }

    /** A finished string stays safe when the buffer moves to a new block and frees at most one without strings. */
    twostate lemma SafeInNewBlock(s: Issued)
      requires old(Safe(s)) && unchanged(s.block) && s.block != buf
      requires old(live) <= live + {old(buf)} && (old(curStr) > 0 ==> old(live) <= live)
      ensures Safe(s)
    {
    }

    /** handle_output_overflow and handle_intrfile_overflow */
    method HandleOutputOverflow()
      requires Valid() && policy == Flush
      modifies this`file, this`curStr, this`nextFree
      ensures Valid() && Geo() == old(Geo()).Overflow()
      ensures file == added
    {
      file := file + buf[..nextFree];
      curStr, nextFree := 0, 0;
    }

    /** handle_trial_overflow, once the unfinished string is known not to overlap its new place */
    method HandleTrialOverflow()
      requires Valid() && policy == Wrap && !Geo().Overlaps()
      modifies this, buf
      ensures Valid() && Geo() == old(Geo()).Overflow()
      ensures added == old(added) && cur == old(cur) && issued == old(issued) && file == old(file)
      ensures (buf == old(buf) || fresh(buf)) && fresh(live - old(live))
    {
      if curStr == 0 {
        InitStringBuffer();
      } else {
        var curStrLen := nextFree - curStr;
        ghost var was := buf[curStr..nextFree];
        forall i | 0 <= i < curStrLen { buf[i] := buf[curStr + i]; }
        curStr, nextFree := 0, curStrLen;
        assert buf[..nextFree] == was;
      }
    }

    /** The handler of the buffer's policy; ok is false if the handler itself would copy overlapping bytes. */
    method HandleOverflow() returns (ok: bool)
      requires Valid()
      modifies this, buf
      ensures ok <==> !old(Geo()).Overlaps()
      ensures ok ==> Valid() && Geo() == old(Geo()).Overflow()
      ensures ok ==> added == old(added) && cur == old(cur) && issued == old(issued)
      ensures buf == old(buf) || fresh(buf)
      ensures fresh(live - old(live))
    {
      ok := true;
      match policy {
        case Flush => HandleOutputOverflow();
        case Heap => InitStringBuffer();
        case Wrap =>
          if 0 < curStr < nextFree - curStr { return false; }
          HandleTrialOverflow();
      }
    }

    /** Copies the text behind what is there already. */
    method Store(text: seq<char>)
      requires Valid() && nextFree + |text| <= buf.Length
      modifies buf, this`nextFree, this`added, this`cur
      ensures Valid()
      ensures added == old(added) + text && cur == old(cur) + text
    {
      CopyTo(buf, nextFree, text);
      ghost var end := nextFree + |text|;
      assert buf[..end] == buf[..nextFree] + buf[nextFree..end];
      assert buf[curStr..nextFree] == buf[..nextFree][curStr..];
      assert old(buf[curStr..nextFree]) == old(buf[..nextFree])[curStr..];
      assert buf[curStr..end] == buf[curStr..nextFree] + buf[nextFree..end];
      forall s | s in issued && policy == Heap ensures Intact(s) {
        if s.block == buf { BelowUnchanged(s); }
      }
      nextFree := nextFree + |text|;
      added, cur := added + text, cur + text;
    }

    /** A string that ends below the unfinished one does not see the bytes from there on. */
    twostate lemma BelowUnchanged(s: Issued)
      requires s.block == buf == old(buf) && old(Intact(s))
      requires curStr == old(curStr) <= nextFree == old(nextFree) <= buf.Length
      requires s.start + |s.text| <= curStr && buf[..nextFree] == old(buf[..nextFree])
      ensures Intact(s)
    {
      var end := s.start + |s.text|;
      assert buf[s.start..end] == buf[..nextFree][s.start..end];
      assert old(buf[s.start..end]) == old(buf[..nextFree])[s.start..end];
    }

    // ---------------------------------------------------------------- adding text

    /** add_to_string_with_len: ok tells whether every byte it stores lies in the block. */
    method AddToStringWithLen(text: seq<char>) returns (ok: bool)
      requires Valid()
      modifies this, buf
      ensures ok <==> old(Geo()).Roomy(|text|)
      ensures ok ==> Valid() && added == old(added) + text && cur == old(cur) + text && issued == old(issued)
      ensures ok ==> Geo() == old(Geo()).Longer(|text|)
      ensures old(nextFree) + |text| < old(buf.Length) ==>
                ok && buf == old(buf) && curStr == old(curStr) && file == old(file)
      ensures ok && old(nextFree) + |text| >= old(buf.Length) ==>
                curStr == 0 && (policy == Flush ==> file == old(added) && nextFree == |text|)
      ensures fresh(live - old(live)) && (buf == old(buf) || fresh(buf))
    {
      ok := true;
      if nextFree + |text| > buf.Length - 1 {
        ok := HandleOverflow();
        if !ok { return; }
        while |text| > buf.Length
          invariant Valid() && curStr == 0
          invariant added == old(added) && cur == old(cur) && issued == old(issued)
          invariant fresh(live - old(live)) && (buf == old(buf) || fresh(buf))
          invariant policy == Flush ==> file == old(added) && nextFree == 0
          invariant old(Geo()).Overflow().Doubled(|text|) == Geo().Doubled(|text|)
          decreases |text| - buf.Length
        {
          InitStringBuffer();
        }
        ok := nextFree + |text| <= buf.Length;
        DoubledFits(old(Geo()).Overflow(), |text|);
        RoomyIff(old(Geo()), |text|);
      }
      if ok { Store(text); }
    }

    /** add_1_char_to_string, add_2_chars_to_string and add_3_chars_to_string */
    method AddChars(text: seq<char>) returns (ok: bool)
      requires Valid() && 1 <= |text| <= 3
      modifies this, buf
      ensures ok <==> old(Geo()).RoomyFew(|text|, |text|)
      ensures ok ==> Valid() && added == old(added) + text && cur == old(cur) + text && issued == old(issued)
      ensures ok ==> Geo() == old(Geo()).LongerFew(|text|, |text|)
      ensures old(nextFree) + |text| < old(buf.Length) ==>
                ok && buf == old(buf) && curStr == old(curStr) && file == old(file)
      ensures ok && old(nextFree) + |text| >= old(buf.Length) ==>
                curStr == 0 && (policy == Flush ==> file == old(added))
      ensures fresh(live - old(live)) && (buf == old(buf) || fresh(buf))
    {
      ok := Reserve(|text|, |text|);
      if ok { Store(text); }
    }

    /** Makes room for reserve bytes the way the fixed-length functions do, to store so many. */
    method Reserve(reserve: nat, stored: nat) returns (ok: bool)
      requires Valid() && stored <= reserve
      modifies this, buf
      ensures ok <==> old(Geo()).RoomyFew(reserve, stored)
      ensures ok ==> Valid() && nextFree + stored <= buf.Length
      ensures ok ==> Geo().(next := nextFree + stored) == old(Geo()).LongerFew(reserve, stored)
      ensures old(nextFree) + reserve < old(buf.Length) ==>
                ok && buf == old(buf) && curStr == old(curStr) && file == old(file)
      ensures ok && old(nextFree) + reserve >= old(buf.Length) ==>
                curStr == 0 && (policy == Flush ==> file == old(added))
      ensures ok ==> added == old(added) && cur == old(cur) && issued == old(issued)
      ensures fresh(live - old(live)) && (buf == old(buf) || fresh(buf))
    {
      ok := true;
      if nextFree + reserve > buf.Length - 1 {
        ok := HandleOverflow();
        if ok { ok := nextFree + stored <= buf.Length; }
      }
    }

    /** add_num_to_string: 32 bytes are reserved for the number and the strings around it. */
    method AddNumToString(num: nat, pre: string, post: string) returns (ok: bool)
      requires Valid() && |pre + Printed(num) + post| <= 32
      modifies this, buf
      ensures ok <==> old(Geo()).RoomyFew(32, |pre + Printed(num) + post|)
      ensures ok ==> Valid() && issued == old(issued)
      ensures ok ==> Geo() == old(Geo()).LongerFew(32, |pre + Printed(num) + post|)
      ensures old(nextFree) + 32 < old(buf.Length) ==>
                ok && buf == old(buf) && curStr == old(curStr) && file == old(file)
      ensures ok && old(nextFree) + 32 >= old(buf.Length) ==>
                curStr == 0 && (policy == Flush ==> file == old(added))
      ensures ok ==> added == old(added) + (pre + Printed(num) + post) && cur == old(cur) + (pre + Printed(num) + post)
      ensures fresh(live - old(live)) && (buf == old(buf) || fresh(buf))
    {
      var digits := PrintDecimal(num);
      ok := Reserve(32, |pre + digits + post|);
      if ok { Store(pre + digits + post); }
    }

    /** The bytes terminate_string adds. */
    function Ending(): string {
      if terminator == '\r' then "\r\n" else [terminator]
    }

    /** terminate_string: a heap buffer's string is now finished, and will stay as it is. */
    method TerminateString() returns (ok: bool, block: array<char>, start: nat)
      requires Valid()
      modifies this, buf
      ensures ok <==> old(Geo()).RoomyFew(|Ending()|, |Ending()|)
      ensures ok ==> Valid() && added == old(added) + Ending() && cur == []
      ensures ok ==> var g := old(Geo()).LongerFew(|Ending()|, |Ending()|); Geo() == g.(cur := g.next)
      ensures ok && terminator != '\r' ==> added == old(added) + [terminator]
      ensures ok && terminator == '\r' ==> added == old(added) + ['\r', '\n']
      ensures ok && policy != Flush ==>
                start + |old(cur)| < block.Length && block[start..start + |old(cur)|] == old(cur)
      ensures ok && policy != Flush ==> block[start + |old(cur)|] == terminator
      ensures ok && policy == Heap ==> issued == old(issued) + [Issued(block, start, old(cur) + Ending())]
      ensures fresh(live - old(live)) && (buf == old(buf) || fresh(buf))
    {
      ghost var text := cur;
      ok := AddChars(Ending());
      block, start := buf, curStr;
      if ok { CutString(text); }
    }

    /** The next string starts behind the terminator; a heap buffer has issued this one. */
    method CutString(ghost text: seq<char>)
      requires Valid() && cur == text + Ending()
      modifies this`curStr, this`cur, this`issued
      ensures Valid() && cur == [] && Geo() == old(Geo()).(cur := nextFree)
      ensures policy != Flush ==>
                old(curStr) + |text| < buf.Length && buf[old(curStr)..old(curStr) + |text|] == text
      ensures policy != Flush ==> buf[old(curStr) + |text|] == terminator
      ensures issued == old(issued) + if policy == Heap then [Issued(buf, old(curStr), text + Ending())] else []
    {
      if policy != Flush {
        SliceStart(buf[..], curStr, nextFree, text, Ending());
        assert buf[curStr + |text|] == buf[curStr..nextFree][|text|] == Ending()[0];
      }
      if policy == Heap { issued := issued + [Issued(buf, curStr, cur)]; }
      curStr := nextFree;
      cur := [];
    }

    /** terminate_string on a flushing buffer. */
    method EndLine()
      requires Valid() && policy == Flush
      modifies this, buf
      ensures Valid() && added == old(added) + Ending()
      ensures fresh(live - old(live)) && (buf == old(buf) || fresh(buf))
    {
      FlushAlwaysRoomy(Geo(), |Ending()|);
      var ok, block, start := TerminateString();
    }

    /** The final flush: the file holds everything that was added. */
    method FlushBuffer()
      requires Valid() && policy == Flush
      modifies this`file, this`curStr, this`nextFree
      ensures Valid() && file == added && nextFree == 0
    {
      HandleOutputOverflow();
    }

    /** A flushing buffer always has room. */
    method Put(text: seq<char>)
      requires Valid() && policy == Flush
      modifies this, buf
      ensures Valid() && added == old(added) + text
      ensures fresh(live - old(live)) && (buf == old(buf) || fresh(buf))
    {
      FlushAlwaysRoomy(Geo(), |text|);
      var ok := AddToStringWithLen(text);
    }

    /** One to three characters, or a terminator, for a flushing buffer. */
    method PutChars(text: seq<char>)
      requires Valid() && policy == Flush && 1 <= |text| <= 3
      modifies this, buf
      ensures Valid() && added == old(added) + text
      ensures fresh(live - old(live)) && (buf == old(buf) || fresh(buf))
    {
      FlushAlwaysRoomy(Geo(), |text|);
      var ok := AddChars(text);
    }
  }

  /** What add_num_to_string makes of a number: its decimal form exactly below five billion. */
  function Printed(num: nat): string {
    Dec(Printable(num))
  }

  lemma SliceStart(block: seq<char>, from: nat, to: nat, text: seq<char>, more: seq<char>)
    requires from <= to <= |block| && block[from..to] == text + more
    ensures from + |text| <= to && block[from..from + |text|] == text
  {
    assert block[from..from + |text|] == block[from..to][..|text|];
  }

  /** memcpy into a block, from a place outside it */
  method CopyTo(block: array<char>, at: nat, text: seq<char>)
    requires at + |text| <= block.Length
    modifies block
    ensures block[..at] == old(block[..at])
    ensures block[at..at + |text|] == text
  {
    forall i | 0 <= i < |text| { block[at + i] := text[i]; }
  }
}
