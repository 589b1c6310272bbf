/** The WebAssembly linear memory as a DataView sees it: bytes, with 32-bit words stored little-endian. */
module LinearMemory {
  import opened Bytes

  type u32 = x: int | 0 <= x < 0x1_0000_0000

  /** The unsigned word in four bytes, least significant first. */
  function Word(b0: byte, b1: byte, b2: byte, b3: byte): (w: u32) {
    b0 + 0x100 * b1 + 0x1_0000 * b2 + 0x100_0000 * b3
  }

  function WordAt(bytes: seq<byte>, addr: nat): u32
    requires addr + 4 <= |bytes|
  {
    Word(bytes[addr], bytes[addr + 1], bytes[addr + 2], bytes[addr + 3])
  }

  function Byte(v: u32, i: nat): (b: byte)
    requires i < 4
  {
    if i == 0 then v % 0x100
    else if i == 1 then v / 0x100 % 0x100
    else if i == 2 then v / 0x100 / 0x100 % 0x100
    else v / 0x100 / 0x100 / 0x100
  }

  lemma BytesMakeWord(v: u32)
    ensures Word(Byte(v, 0), Byte(v, 1), Byte(v, 2), Byte(v, 3)) == v
  {
    var a := v / 0x100;
    var b := a / 0x100;
    var c := b / 0x100;
    assert v == 0x100 * a + Byte(v, 0);
    assert a == 0x100 * b + Byte(v, 1);
    assert b == 0x100 * c + Byte(v, 2);
  }

  /** Only the n bytes from addr on may differ. */
  ghost predicate SameOutside(before: seq<byte>, after: seq<byte>, addr: nat, n: nat) {
    && |before| == |after|
    && forall k :: 0 <= k < |before| && !(addr <= k < addr + n) ==> before[k] == after[k]
  }

  /** The least significant byte comes first. */
  lemma LowByteFirst(bytes: seq<byte>, addr: nat)
    requires addr + 4 <= |bytes|
    ensures var b0: int, b1: int, b2: int, b3: int := bytes[addr], bytes[addr + 1], bytes[addr + 2], bytes[addr + 3];
            WordAt(bytes, addr) as int == b0 + 0x100 * b1 + 0x1_0000 * b2 + 0x100_0000 * b3
  {}

  /** setUint32: the value is taken modulo 2^32, as ToUint32 does, and stored low byte first. */
  method SetUint32(mem: array<byte>, addr: nat, v: int)
    requires addr + 4 <= mem.Length
    modifies mem
    ensures WordAt(mem[..], addr) == v % 0x1_0000_0000
    ensures SameOutside(old(mem[..]), mem[..], addr, 4)
  {
    var w: u32 := v % 0x1_0000_0000;
    mem[addr] := Byte(w, 0);
    mem[addr + 1] := Byte(w, 1);
    mem[addr + 2] := Byte(w, 2);
    mem[addr + 3] := Byte(w, 3);
    BytesMakeWord(w);
  }

  method GetUint32(mem: array<byte>, addr: nat) returns (w: u32)
    requires addr + 4 <= mem.Length
    ensures w == WordAt(mem[..], addr)
  {
    w := Word(mem[addr], mem[addr + 1], mem[addr + 2], mem[addr + 3]);
  }

  /** The word as a 32-bit two's complement number. */
  function Signed(w: u32): (v: int)
    ensures -0x8000_0000 <= v < 0x8000_0000 && v % 0x1_0000_0000 == w
  {
    if w < 0x8000_0000 then w else w - 0x1_0000_0000
  }

  /** setInt64: low word, then the floor of v / 2^32; both exact for doubles up to 2^53 in magnitude. */
  method SetInt64(mem: array<byte>, addr: nat, v: int)
    requires addr + 8 <= mem.Length
    modifies mem
    ensures WordAt(mem[..], addr) == v % 0x1_0000_0000
    ensures WordAt(mem[..], addr + 4) == v / 0x1_0000_0000 % 0x1_0000_0000
    ensures SameOutside(old(mem[..]), mem[..], addr, 8)
  {
    SetUint32(mem, addr, v);
    ghost var mid := mem[..];
    SetUint32(mem, addr + 4, v / 0x1_0000_0000);
    assert forall k :: addr <= k < addr + 4 ==> mem[..][k] == mid[k];
  }

  method GetInt64(mem: array<byte>, addr: nat) returns (v: int)
    requires addr + 8 <= mem.Length
    ensures v == WordAt(mem[..], addr) + Signed(WordAt(mem[..], addr + 4)) * 0x1_0000_0000
  {
    var low := GetUint32(mem, addr);
    var high := GetUint32(mem, addr + 4);
    v := low + Signed(high) * 0x1_0000_0000;
  }

  const SAFE := 0x20_0000_0000_0000

  /** What setInt64 leaves in memory getInt64 reads back, for every integer a double holds exactly. */
  lemma Int64RoundTrip(v: int, low: u32, high: u32)
    requires -SAFE <= v <= SAFE
    requires low == v % 0x1_0000_0000 && high == v / 0x1_0000_0000 % 0x1_0000_0000
    ensures low + Signed(high) * 0x1_0000_0000 == v
  {
    var q := v / 0x1_0000_0000;
    assert -0x20_0000 <= q <= 0x20_0000;
  }

  // ---------- the argument block ----------

  const ARGS_START := 4096
  const MIN_DATA_ADDR := 4096 + 8192

  /** The C string text, with its terminator, is in memory at ptr. */
  ghost predicate CString(bytes: seq<byte>, ptr: nat, text: seq<byte>) {
    ptr + |text| < |bytes| && bytes[ptr..ptr + |text|] == text && bytes[ptr + |text|] == 0
  }

  function RoundUp(n: nat): (r: nat)
    ensures r % 8 == 0 && n <= r < n + 8
  {
    if n % 8 != 0 then n + (8 - n % 8) else n
  }

  /** Where the first n strings end: each takes its bytes, a terminator and padding. */
  function StringsEnd(texts: seq<seq<byte>>, n: nat): (end: nat)
    requires n <= |texts|
    ensures end % 8 == 0 && end >= ARGS_START
  {
    if n == 0 then ARGS_START else RoundUp(StringsEnd(texts, n - 1) + |texts[n - 1]| + 1)
  }

  lemma {:induction false} StringsEndGrows(texts: seq<seq<byte>>, n: nat, m: nat)
    requires n <= m <= |texts|
    ensures StringsEnd(texts, n) <= StringsEnd(texts, m)
  {
    if n < m {
      StringsEndGrows(texts, n, m - 1);
    }
  }

  /** strPtr: copy the bytes and a terminator at offset, then round up to a multiple of eight. */
  method StrPtr(mem: array<byte>, offset: nat, text: seq<byte>) returns (ok: bool, next: nat)
    requires offset % 8 == 0
    modifies mem
    ensures ok <==> offset + |text| < mem.Length
    ensures !ok ==> mem[..] == old(mem[..])
    ensures ok ==> CString(mem[..], offset, text) && SameOutside(old(mem[..]), mem[..], offset, |text| + 1)
    ensures next == RoundUp(offset + |text| + 1)
  {
    var end := offset + |text| + 1;
    next := RoundUp(end);
    if end > mem.Length {
      return false, next;
    }
    for i := 0 to |text|
      invariant forall k :: 0 <= k < i ==> mem[offset + k] == text[k]
      invariant SameOutside(old(mem[..]), mem[..], offset, i)
    {
      mem[offset + i] := text[i];
    }
    mem[offset + |text|] := 0;
    return true, next;
  }

  /** Strings from..to of texts lie in order, eight-aligned and apart, from ARGS_START up to limit. */
  ghost predicate LaidOut(bytes: seq<byte>, texts: seq<seq<byte>>, ptrs: seq<nat>, limit: nat) {
    && |ptrs| <= |texts|
    && (forall i :: 0 <= i < |ptrs| ==> ARGS_START <= ptrs[i] && ptrs[i] % 8 == 0 && ptrs[i] + |texts[i]| < limit)
    && (forall i, j :: 0 <= i < j < |ptrs| ==> ptrs[i] + |texts[i]| < ptrs[j])
    && (forall i :: 0 <= i < |ptrs| ==> CString(bytes, ptrs[i], texts[i]))
  }

  lemma StaysLaidOut(before: seq<byte>, after: seq<byte>, texts: seq<seq<byte>>, ptrs: seq<nat>, limit: nat, n: nat)
    requires LaidOut(before, texts, ptrs, limit) && SameOutside(before, after, limit, n)
    ensures LaidOut(after, texts, ptrs, limit)
  {
    forall i | 0 <= i < |ptrs| ensures CString(after, ptrs[i], texts[i]) {
      assert CString(before, ptrs[i], texts[i]);
      forall k | 0 <= k < |texts[i]| ensures after[ptrs[i] + k] == texts[i][k] {
        assert before[ptrs[i]..ptrs[i] + |texts[i]|][k] == texts[i][k];
      }
      assert after[ptrs[i]..ptrs[i] + |texts[i]|] == texts[i];
    }
  }

  /** The string just written at offset extends the layout, and leaves the earlier ones alone. */
  lemma OneMoreLaidOut(before: seq<byte>, after: seq<byte>, texts: seq<seq<byte>>, ptrs: seq<nat>, offset: nat)
    requires LaidOut(before, texts, ptrs, offset) && |ptrs| < |texts| && offset == StringsEnd(texts, |ptrs|)
    requires CString(after, offset, texts[|ptrs|]) && SameOutside(before, after, offset, |texts[|ptrs|]| + 1)
    ensures LaidOut(after, texts, ptrs + [offset], StringsEnd(texts, |ptrs| + 1))
  {
    StaysLaidOut(before, after, texts, ptrs, offset, |texts[|ptrs|]| + 1);
    ExtendLayout(after, texts, ptrs, offset, StringsEnd(texts, |ptrs| + 1));
  }

  lemma ExtendLayout(bytes: seq<byte>, texts: seq<seq<byte>>, ptrs: seq<nat>, offset: nat, next: nat)
    requires LaidOut(bytes, texts, ptrs, offset) && |ptrs| < |texts| && offset >= ARGS_START && offset % 8 == 0
    requires CString(bytes, offset, texts[|ptrs|]) && offset + |texts[|ptrs|]| < next
    ensures LaidOut(bytes, texts, ptrs + [offset], next)
  {}

  /** Puts the next string behind those already laid out. */
  method PlaceString(mem: array<byte>, texts: seq<seq<byte>>, ptrs: seq<nat>, offset: nat) returns (ok: bool, next: nat)
    requires |ptrs| < |texts| && offset == StringsEnd(texts, |ptrs|) && LaidOut(mem[..], texts, ptrs, offset)
    modifies mem
    ensures next == StringsEnd(texts, |ptrs| + 1)
    ensures ok ==> LaidOut(mem[..], texts, ptrs + [offset], next)
    ensures !ok ==> next > mem.Length
  {
    ghost var before := mem[..];
    ok, next := StrPtr(mem, offset, texts[|ptrs|]);
    if ok {
      OneMoreLaidOut(before, mem[..], texts, ptrs, offset);
    }
  }

  method WriteStrings(mem: array<byte>, texts: seq<seq<byte>>) returns (ok: bool, ptrs: seq<nat>, offset: nat)
    modifies mem
    ensures ok ==> |ptrs| == |texts| && LaidOut(mem[..], texts, ptrs, offset) && offset == StringsEnd(texts, |texts|)
    ensures ok ==> (ptrs + [offset])[0] == 4096
    ensures !ok ==> StringsEnd(texts, |texts|) > mem.Length
  {
    ok, ptrs, offset := true, [], ARGS_START;
    for i := 0 to |texts|
      invariant |ptrs| == i && ok
      invariant offset == StringsEnd(texts, i) && (ptrs + [offset])[0] == 4096
      invariant LaidOut(mem[..], texts, ptrs, offset)
    {
      var start := offset;
      ok, offset := PlaceString(mem, texts, ptrs, start);
      if !ok {
        StringsEndGrows(texts, i + 1, |texts|);
        return;
      }
      ptrs := ptrs + [start];
    }
  }

  /** The first k entries of table are in memory at addr as 64-bit little-endian numbers. */
  ghost predicate NumbersAt(bytes: seq<byte>, addr: nat, table: seq<nat>, k: nat) {
    && k <= |table| && (k > 0 ==> addr + 8 * k <= |bytes|)
    && forall j :: 0 <= j < k ==> NumberAt(bytes, addr + 8 * j, table[j])
  }

  ghost predicate NumberAt(bytes: seq<byte>, addr: nat, v: nat) {
    addr + 8 <= |bytes| && WordAt(bytes, addr) == v % 0x1_0000_0000 && WordAt(bytes, addr + 4) == 0
  }

  lemma NumberStays(before: seq<byte>, after: seq<byte>, addr: nat, v: nat, touched: nat)
    requires NumberAt(before, addr, v) && addr + 8 <= touched && SameOutside(before, after, touched, 8)
    ensures NumberAt(after, addr, v)
  {
    assert forall k :: addr <= k < addr + 8 ==> before[k] == after[k];
  }

  lemma NumbersStay(before: seq<byte>, after: seq<byte>, addr: nat, table: seq<nat>, k: nat)
    requires NumbersAt(before, addr, table, k) && SameOutside(before, after, addr + 8 * k, 8)
    ensures NumbersAt(after, addr, table, k)
  {
    forall j | 0 <= j < k ensures NumberAt(after, addr + 8 * j, table[j]) {
      NumberStays(before, after, addr + 8 * j, table[j], addr + 8 * k);
    }
  }

  method WriteNumber(mem: array<byte>, addr: nat, v: nat)
    requires addr + 8 <= mem.Length
    modifies mem
    ensures NumberAt(mem[..], addr, v) && SameOutside(old(mem[..]), mem[..], addr, 8)
  {
    SetUint32(mem, addr, v);
    ghost var mid := mem[..];
    SetUint32(mem, addr + 4, 0);
    assert WordAt(mem[..], addr) == WordAt(mid, addr);
  }

  lemma MoreOutside(start: seq<byte>, before: seq<byte>, after: seq<byte>, addr: nat, n: nat)
    requires SameOutside(start, before, addr, n) && SameOutside(before, after, addr + n, 8)
    ensures SameOutside(start, after, addr, n + 8)
  {}

  method WriteTable(mem: array<byte>, addr: nat, table: seq<nat>) returns (ok: bool)
    modifies mem
    ensures ok ==> NumbersAt(mem[..], addr, table, |table|) && SameOutside(old(mem[..]), mem[..], addr, 8 * |table|)
    ensures !ok ==> addr + 8 * |table| > mem.Length
  {
    ghost var start := mem[..];
    for k := 0 to |table|
      invariant NumbersAt(mem[..], addr, table, k)
      invariant SameOutside(start, mem[..], addr, 8 * k)
    {
      if addr + 8 * k + 8 > mem.Length {
        return false;
      }
      ghost var before := mem[..];
      WriteNumber(mem, addr + 8 * k, table[k]);
      NumbersStay(before, mem[..], addr, table, k);
      MoreOutside(start, before, mem[..], addr, 8 * k);
    }
    return true;
  }

  /**
   The argument and environment strings followed by the table of pointers to them: the arguments', a null, the
   environment's, a null. The strings start at 4096 and all of it ends below the data segment at 12288.
   */
  method WriteArgs(mem: array<byte>, args: seq<seq<byte>>, env: seq<seq<byte>>)
    returns (ok: bool, argv: nat, ptrs: seq<nat>)
    modifies mem
    ensures mem.Length >= 12288 ==>
              (ok <==> StringsEnd(args + env, |args| + |env|) + 8 * (|args| + |env| + 2) < 12288)
    ensures ok ==> |ptrs| == |args| + |env| && LaidOut(mem[..], args + env, ptrs, argv) && (ptrs + [argv])[0] == 4096
    ensures ok ==> argv % 8 == 0 && argv + 8 * (|ptrs| + 2) < 12288
    ensures ok ==> NumbersAt(mem[..], argv, Table(ptrs, |args|), |ptrs| + 2)
    ensures ok ==> forall p :: p in ptrs ==> p < 0x1_0000_0000
  {
    ok, ptrs, argv := WriteStrings(mem, args + env);
    if !ok {
      return;
    }
    ghost var strings := mem[..];
    var table := Table(ptrs, |args|);
    ok := WriteTable(mem, argv, table);
    if !ok {
      return;
    }
    StaysLaidOut(strings, mem[..], args + env, ptrs, argv, 8 * |table|);
    ok := argv + 8 * |table| < MIN_DATA_ADDR;
  }

  /** The table that WriteArgs puts behind the strings. */
  function Table(ptrs: seq<nat>, argc: nat): (t: seq<nat>)
    requires argc <= |ptrs|
    ensures |t| == |ptrs| + 2
  {
    ptrs[..argc] + [0] + ptrs[argc..] + [0]
  }

  /** The pointers to the arguments, a null, the pointers to the environment, a null. */
  lemma TableExactly(ptrs: seq<nat>, argc: nat, i: nat)
    requires argc <= |ptrs| && i < |ptrs| + 2
    ensures Table(ptrs, argc)[i] ==
            if i < argc then ptrs[i] else if i == argc || i == |ptrs| + 1 then 0 else ptrs[i - 1]
  {}
}
