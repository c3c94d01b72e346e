/**
 The hash table of interesting files (aset_CCcc/src/SET_file_table.c) and the per-file
 records that is_file_interesting keeps in it (aset_CCcc/src/SET_additions.c).
 A record is known by the id of its output buffer; names are C strings without their NUL.
 */
module FileTable {
  import opened Basics

  datatype Info = Info(id: nat, filename: string)

  // ---------------------------------------------------------------- the hash

  const TABLE_SIZE := 1024
  const TWO_32 := 0x1_0000_0000

  /** A char of the source, which is a signed byte. */
  function SignedByte(c: char): int {
    var b := c as int % 256;
    if b < 128 then b else b - 256
  }

  /** An int of the source after it has overflowed. */
  function Wrap32(x: int): int {
    var m := x % TWO_32;
    if m < TWO_32 / 2 then m else m - TWO_32
  }

  /** The polynomial in 113 that the hash stands for. */
  function Poly(s: string): int {
    if s == "" then 0 else Poly(s[..|s| - 1]) * 113 + SignedByte(s[|s| - 1])
  }

  lemma SignedByteIs(c: char)
    ensures -128 <= SignedByte(c) <= 127 && (SignedByte(c) - c as int) % 256 == 0
  {
  }

  function Power(base: int, k: nat): int {
    if k == 0 then 1 else base * Power(base, k - 1)
  }

  /** The value of a string to a base, from its most significant character on */
  function InBase(base: int, s: string): int {
    if s == "" then 0 else SignedByte(s[0]) * Power(base, |s| - 1) + InBase(base, s[1..])
  }

  lemma {:induction false} InBaseLast(base: int, s: string)
    requires s != ""
    ensures InBase(base, s) == base * InBase(base, s[..|s| - 1]) + SignedByte(s[|s| - 1])
    decreases |s|
  {
    if |s| == 1 {
      assert s[..0] == "" && s[1..] == "" && Power(base, 0) == 1 && InBase(base, "") == 0;
    } else {
      var init, rest := s[..|s| - 1], s[1..];
      InBaseLast(base, rest);
      assert init[1..] == rest[..|rest| - 1] && init[0] == s[0];
      var b, p, low := SignedByte(s[0]), Power(base, |s| - 2), InBase(base, init[1..]);
      assert Power(base, |s| - 1) == base * p;
      Spread(b, base, p, low);
    }
  }

  lemma Spread(b: int, base: int, p: int, low: int)
    ensures b * (base * p) + base * low == base * (b * p + low)
  {
  }

  lemma {:induction false} PolyIsSum(s: string)
    ensures Poly(s) == InBase(113, s)
  {
    if s != "" {
      PolyIsSum(s[..|s| - 1]);
      InBaseLast(113, s);
    }
  }

  function Bucket(name: string): (b: int)
    ensures 0 <= b < TABLE_SIZE
  {
    Poly(name) % TABLE_SIZE
  }

  /** The bucket of a name: all its characters count, as digits to the base 113. */
  lemma BucketIsSum(name: string)
    ensures Bucket(name) == InBase(113, name) % 1024
  {
    PolyIsSum(name);
  }

  lemma WrapKeepsLowBits(x: int)
    ensures Wrap32(x) % TABLE_SIZE == x % TABLE_SIZE
  {
    assert x == TWO_32 * (x / TWO_32) + x % TWO_32;
    assert TWO_32 == TABLE_SIZE * 4194304;
  }

  lemma SameRemainder(a: int, b: int, c: int)
    requires a % TABLE_SIZE == b % TABLE_SIZE
    ensures (a * 113 + c) % TABLE_SIZE == (b * 113 + c) % TABLE_SIZE
  {
    var k := (a - b) / TABLE_SIZE;
    assert a - b == TABLE_SIZE * k;
    assert a * 113 + c == (b * 113 + c) + TABLE_SIZE * (113 * k);
  }

  /** file_table_hash_string: wrapping 32-bit arithmetic, then a mask of ten bits. */
  method HashString(filename: string) returns (h: int)
    ensures h == Bucket(filename)
  {
    var r := 0;
    var i := 0;
    while i < |filename|
      invariant 0 <= i <= |filename|
      invariant r % TABLE_SIZE == Poly(filename[..i]) % TABLE_SIZE
    {
      assert filename[..i + 1][..i] == filename[..i];
      SameRemainder(r, Poly(filename[..i]), SignedByte(filename[i]));
      WrapKeepsLowBits(r * 113 + SignedByte(filename[i]));
      r := Wrap32(r * 113 + SignedByte(filename[i]));
      i := i + 1;
    }
    assert filename[..i] == filename;
    h := r % TABLE_SIZE;  // the mask keeps the low ten bits, also of a negative number
  }

  // ---------------------------------------------------------------- association lists

  /** The first record with this name. */
  function FirstNamed(records: seq<Info>, name: string): (r: Option<Info>)
    ensures r.Some? ==> r.value in records && r.value.filename == name
    ensures r.None? ==> forall info :: info in records ==> info.filename != name
  {
    if records == [] then None
    else if records[0].filename == name then Some(records[0])
    else FirstNamed(records[1..], name)
  }

  /** The records that hash to bucket b, in order. */
  function InBucket(records: seq<Info>, b: int): seq<Info> {
    if records == [] then []
    else
      var last := records[|records| - 1];
      InBucket(records[..|records| - 1], b) + (if Bucket(last.filename) == b then [last] else [])
  }

  lemma {:induction false} FirstNamedAppend(records: seq<Info>, info: Info, name: string)
    ensures FirstNamed(records + [info], name) ==
            if FirstNamed(records, name).Some? then FirstNamed(records, name)
            else if info.filename == name then Some(info) else None
  {
    if records != [] {
      assert (records + [info])[1..] == records[1..] + [info];
      FirstNamedAppend(records[1..], info, name);
    }
  }

  lemma InBucketAppend(records: seq<Info>, info: Info, b: int)
    ensures InBucket(records + [info], b) == InBucket(records, b) + (if Bucket(info.filename) == b then [info] else [])
  {
    assert (records + [info])[..|records|] == records;
  }

  function AllBuckets(records: seq<Info>): (lists: seq<seq<Info>>)
    ensures |lists| == TABLE_SIZE && forall b :: 0 <= b < TABLE_SIZE ==> lists[b] == InBucket(records, b)
  {
    seq(TABLE_SIZE, b => InBucket(records, b))
  }

  lemma AllBucketsAppend(records: seq<Info>, info: Info)
    ensures var lists, h := AllBuckets(records), Bucket(info.filename);
      AllBuckets(records + [info]) == lists[h := lists[h] + [info]]
  {
    var lists, h := AllBuckets(records), Bucket(info.filename);
    forall b | 0 <= b < TABLE_SIZE
      ensures AllBuckets(records + [info])[b] == lists[h := lists[h] + [info]][b]
    {
      InBucketAppend(records, info, b);
    }
  }

  /** Looking in the name's own bucket finds the first record of all. */
  lemma {:induction false} BucketSuffices(records: seq<Info>, name: string)
    ensures FirstNamed(InBucket(records, Bucket(name)), name) == FirstNamed(records, name)
  {
    if records != [] {
      var init, last := records[..|records| - 1], records[|records| - 1];
      assert records == init + [last];
      BucketSuffices(init, name);
      FirstNamedAppend(init, last, name);
      var before := InBucket(init, Bucket(name));
      InBucketAppend(init, last, Bucket(name));
      FirstNamedAppend(before, last, name);
      assert before + [] == before;
    }
  }

  // ---------------------------------------------------------------- buckets

  const BLOCKSIZE := 16

  class HashBucket {
    var filelist: array<Info>
    var size: nat

    ghost predicate Valid()
      reads this
    {
      size <= filelist.Length
    }

    ghost function Contents(): seq<Info>
      requires Valid()
      reads this, filelist
    {
      filelist[..size]
    }

    constructor ()
      ensures Valid() && Contents() == [] && fresh(filelist)
    {
      filelist := new Info[0];
      size := 0;
    }

    /** grow_file_table_hash_bucket */
    method Grow()
      requires Valid()
      modifies this
      ensures Valid() && Contents() == old(Contents()) && size == old(size)
      ensures fresh(filelist) && filelist.Length == size + 16
    {
      var bigger := new Info[size + BLOCKSIZE](_ => Info(0, ""));
      forall i | 0 <= i < size { bigger[i] := filelist[i]; }
      assert bigger[..size] == filelist[..size];
      filelist := bigger;
    }

    /** add_to_file_table_hash_bucket */
    method Add(info: Info)
      requires Valid()
      modifies this, filelist
      ensures Valid() && Contents() == old(Contents()) + [info]
      ensures filelist == old(filelist) || fresh(filelist)
    {
      if size == filelist.Length { Grow(); }
      filelist[size] := info;
      size := size + 1;
    }

    /** in_file_table_hash_bucket */
    method Find(filename: string) returns (found: Option<Info>)
      requires Valid()
      ensures found == FirstNamed(Contents(), filename)
    {
      var i := 0;
      while i < size
        invariant 0 <= i <= size
        invariant FirstNamed(Contents(), filename) == FirstNamed(Contents()[i..], filename)
      {
        if filelist[i].filename == filename {
          return Some(filelist[i]);
        }
        assert Contents()[i..][1..] == Contents()[i + 1..];
        i := i + 1;
      }
      return None;
    }
  }

  // ---------------------------------------------------------------- the table

  class Table {
    const buckets: seq<HashBucket>
    ghost var records: seq<Info>   // everything added, in order

    ghost predicate Shape()
      reads buckets
    {
      && |buckets| == TABLE_SIZE
      && (forall i :: 0 <= i < |buckets| ==> buckets[i].Valid())
      && (forall i, j :: 0 <= i < j < |buckets| ==>
            buckets[i] != buckets[j] && buckets[i].filelist != buckets[j].filelist)
    }

    ghost predicate Hold(lists: seq<seq<Info>>)
      requires Shape()
      reads buckets, set b | b in buckets :: b.filelist
    {
      |lists| == |buckets| && forall i :: 0 <= i < |buckets| ==> buckets[i].Contents() == lists[i]
    }

    ghost predicate Valid()
      reads this, buckets, set b | b in buckets :: b.filelist
    {
      Shape() && Hold(AllBuckets(records))
    }

    /** init_file_table */
    constructor ()
      ensures Valid() && records == [] && fresh(buckets) && fresh(set b | b in buckets :: b.filelist)
    {
      var bs: seq<HashBucket> := [];
      while |bs| < TABLE_SIZE
        invariant |bs| <= TABLE_SIZE && fresh(bs) && fresh(set b | b in bs :: b.filelist)
        invariant forall i :: 0 <= i < |bs| ==> bs[i].Valid() && bs[i].Contents() == []
        invariant forall i, j :: 0 <= i < j < |bs| ==> bs[i] != bs[j] && bs[i].filelist != bs[j].filelist
      {
        var b := new HashBucket();
        bs := bs + [b];
      }
      buckets, records := bs, [];
    }

    /** One bucket gets the record; the others keep theirs. */
    method AddToBucket(h: nat, info: Info, ghost lists: seq<seq<Info>>)
      requires Shape() && Hold(lists) && h < |buckets|
      modifies buckets[h], buckets[h].filelist
      ensures Shape() && Hold(lists[h := lists[h] + [info]])
      ensures forall b :: b in buckets ==> b.filelist == old(b.filelist) || fresh(b.filelist)
    {
      buckets[h].Add(info);
      forall i | 0 <= i < |buckets| && i != h ensures buckets[i].Contents() == lists[i] {
        assert buckets[i] != buckets[h] && old(buckets[i].filelist) != old(buckets[h].filelist);
      }
    }

    /** The bucket is that of its name. */
    method AddToOwnBucket(h: nat, info: Info, ghost more: seq<Info>)
      requires Valid() && h == Bucket(info.filename) && more == records + [info]
      modifies buckets[h], buckets[h].filelist
      ensures Shape() && Hold(AllBuckets(more))
      ensures forall b :: b in buckets ==> b.filelist == old(b.filelist) || fresh(b.filelist)
    {
      AllBucketsAppend(records, info);
      AddToBucket(h, info, AllBuckets(records));
    }

    /** add_to_file_table */
    method Add(info: Info)
      requires Valid()
      modifies this, buckets, set b | b in buckets :: b.filelist
      ensures Valid() && records == old(records) + [info]
      ensures forall b :: b in buckets ==> b.filelist == old(b.filelist) || fresh(b.filelist)
    {
      var h := HashString(info.filename);
      ghost var more := records + [info];
      AddToOwnBucket(h, info, more);
      records := more;
    }

    /** in_file_table */
    method Find(filename: string) returns (found: Option<Info>)
      requires Valid()
      ensures found == if filename == "" then None else FirstNamed(records, filename)
    {
      found := None;
      if filename != "" {
        var h := HashString(filename);
        found := buckets[h].Find(filename);
        BucketSuffices(records, filename);
      }
    }
  }

  // ---------------------------------------------------------------- the records of the interesting files

  const MAX_INTR_FILES := 1024

  /** The table, and intr_info_array with its count. */
  class Registry {
    const table: Table
    var infoArray: seq<Info>

    ghost predicate Valid()
      reads this, table, table.buckets, set b | b in table.buckets :: b.filelist
    {
      && table.Valid() && table.records == infoArray && |infoArray| <= MAX_INTR_FILES
      // the record of a buffer is found by the buffer's id
      && (forall i :: 0 <= i < |infoArray| ==> infoArray[i].id == i)
      // there is one record per path
      && (forall i, j :: 0 <= i < j < |infoArray| ==> infoArray[i].filename != infoArray[j].filename)
    }

    constructor ()
      ensures Valid() && infoArray == []
    {
      table := new Table();
      infoArray := [];
    }

    /**
     is_file_interesting on an absolute path; extract is what extract_IF_file_for answers for it.
     inside tells whether a new record, if one is made, has a place in the array of MAX_INTR_FILES;
     the code does not check.
     */
    method IsFileInteresting(absolutePath: string, extract: bool) returns (intrp: Option<Info>, inside: bool)
      requires Valid() && absolutePath != ""
      modifies this, table, table.buckets, set b | b in table.buckets :: b.filelist
      ensures Valid()
      ensures inside <==>
        FirstNamed(old(infoArray), absolutePath).Some? || !extract || |old(infoArray)| < 1024
      ensures inside ==>
        intrp == if FirstNamed(old(infoArray), absolutePath).Some? then FirstNamed(old(infoArray), absolutePath)
                 else if extract then Some(Info(|old(infoArray)|, absolutePath)) else None
      ensures inside ==>
        infoArray == old(infoArray) + (if intrp.Some? && intrp.value !in old(infoArray) then [intrp.value] else [])
    {
      inside := true;
      intrp := table.Find(absolutePath);
      if intrp.None? && extract {
        inside := |infoArray| < MAX_INTR_FILES;
        if inside {
          var info := Info(|infoArray|, absolutePath);
          infoArray := infoArray + [info];
          table.Add(info);
          intrp := Some(info);
        }
      }
    }
  }

  /** An empty name is never found, so it would be registered again and again. */
  method EmptyNameIsNeverFound(t: Table) returns (found: Option<Info>)
    requires t.Valid() && Info(0, "") in t.records
    ensures found.None? && FirstNamed(t.records, "").Some?
  {
    found := t.Find("");
  }
}
