/** Bounds-checked access of the host to the guest's shared linear memory
(the `ShmemExt` trait implemented for wasmtime's `SharedMemory`).

Guest pointers arrive as `i32` and are converted with `ptr as usize`, which
sign-extends: on the 64-bit hosts the harness runs on, a negative pointer
becomes an address of at least 2^64 - 2^31, far beyond any 32-bit memory,
so every access through it is out of range. Volatile reads and writes are
modelled as plain reads and writes of a byte sequence; an access that is out
of range fails before anything is written.
 */
module Shmem {
  import opened Wrappers
  import opened Utf8
  import opened Ints

  /** A 32-bit memory holds at most 65536 pages of 64 KiB. */
  const MAX_MEMORY_BYTES: int := 0x1_0000_0000

  /** The contents of the shared linear memory. */
  type Memory = s: seq<Byte> | |s| <= MAX_MEMORY_BYTES

  datatype ShmemError =
    | OutOfRange(ptr: Usize, len: Usize, shmemLen: nat)
    | InvalidUtf8

  /** `ptr as usize` for an `i32` on a 64-bit host: sign extension. */
  function AsUsize(ptr: I32): (r: Usize)
    ensures ptr >= 0 ==> r == ptr
    ensures ptr < 0 ==> r >= USIZE_LIMIT - I32_LIMIT && r % I32_LIMIT == ptr % I32_LIMIT
  {
    I64AsUsize(ptr)
  }

  /** `extract_unsafe_cell_byte_slice`: the `len` cells starting at `ptr`,
      present iff they all lie inside the memory. */
  function ExtractCells(mem: Memory, ptr: I32, len: Usize): (r: Result<seq<Byte>, ShmemError>)
    ensures r.Ok? <==> ptr >= 0 && ptr + len <= |mem|
    ensures r.Ok? ==> |r.value| == len && forall k :: 0 <= k < len ==> r.value[k] == mem[ptr + k]
    ensures r.Err? ==> r.error == OutOfRange(AsUsize(ptr), len, |mem|)
  {
    var start := AsUsize(ptr);
    if start + len <= |mem| then Ok(mem[start..start + len])
    else Err(OutOfRange(start, len, |mem|))
  }

  /** `extract_byte_slice`: a copy of `mem[ptr..ptr + len]`. */
  function ExtractBytes(mem: Memory, ptr: I32, len: Usize): (r: Result<seq<Byte>, ShmemError>)
    ensures r.Ok? <==> ptr >= 0 && ptr + len <= |mem|
    ensures r.Ok? ==> r.value == mem[ptr..ptr + len]
  {
    var cells :- ExtractCells(mem, ptr, len);
    Ok(cells)
  }

  /** `bytes.split(|&b| b == 0).next()`: everything before the first NUL
      byte, or all of `bs` when it has none. */
  function BeforeNul(bs: seq<Byte>): (r: seq<Byte>)
    ensures r <= bs
    ensures forall k :: 0 <= k < |r| ==> r[k] != 0
    ensures |r| < |bs| ==> bs[|r|] == 0
  {
    if bs == [] || bs[0] == 0 then [] else [bs[0]] + BeforeNul(bs[1..])
  }

  /** `extract_str_slice`: the text before the first NUL of the `len`
      bytes at `ptr`, which must be valid UTF-8. */
  function ExtractStr(mem: Memory, ptr: I32, len: Usize): (r: Result<string, ShmemError>)
    ensures ExtractBytes(mem, ptr, len).Err? ==> r.Err? && r.error.OutOfRange?
    ensures ExtractBytes(mem, ptr, len).Ok? ==>
              var text := BeforeNul(mem[ptr..ptr + len]);
              && (r.Ok? <==> Decode(text).Some?)
              && (r.Ok? ==> Encode(r.value) == text)
              && (r.Err? ==> r.error == InvalidUtf8)
  {
    var bytes :- ExtractBytes(mem, ptr, len);
    var text := BeforeNul(bytes);
    match Decode(text)
    case Some(s) => EncodeDecode(text); Ok(s)
    case None => Err(InvalidUtf8)
  }

  /** A string read from guest memory never contains NUL. */
  lemma ExtractedStrHasNoNul(mem: Memory, ptr: I32, len: Usize)
    requires ExtractStr(mem, ptr, len).Ok?
    ensures forall k :: 0 <= k < |ExtractStr(mem, ptr, len).value| ==>
              ExtractStr(mem, ptr, len).value[k] != 0 as char
  {
    var s := ExtractStr(mem, ptr, len).value;
    var text := BeforeNul(mem[ptr..ptr + len]);
    EncodedNulFree(s, text);
  }

  /** A string whose encoding has no zero byte has no NUL character. */
  lemma {:induction false} EncodedNulFree(s: string, bs: seq<Byte>)
    requires Encode(s) == bs
    requires forall k :: 0 <= k < |bs| ==> bs[k] != 0
    ensures forall k :: 0 <= k < |s| ==> s[k] != 0 as char
  {
    if s != [] {
      var e := EncodeScalar(s[0]);
      assert bs[0] == e[0];
      assert bs[|e|..] == Encode(s[1..]);
      EncodedNulFree(s[1..], bs[|e|..]);
      forall k | 0 <= k < |s|
        ensures s[k] != 0 as char
      {
        if k > 0 { assert s[k] == s[1..][k - 1]; }
      }
    }
  }

  /** A NUL byte inside the range cuts the string short. */
  lemma ExtractStrStopsAtNul()
    ensures var mem: Memory := [0x68, 0x69, 0, 0xFF];
            ExtractStr(mem, 0, 4) == Ok("hi")
  {
    var mem: Memory := [0x68, 0x69, 0, 0xFF];
    assert mem[0..4] == mem;
    assert BeforeNul(mem) == [0x68, 0x69] by {
      assert mem[1..][1..] == [0, 0xFF];
    }
    var i: seq<Byte> := [0x69];
    assert DecodeScalar(i) == Some(('i', 1)) && i[1..] == [];
    assert Decode(i[1..]) == Some([]);
    assert Decode(i) == Some(['i'] + []);
    assert ['i'] + [] == "i";
    var hi: seq<Byte> := [0x68, 0x69];
    assert DecodeScalar(hi) == Some(('h', 1)) && hi[1..] == i;
    assert Decode(hi) == Some(['h'] + "i");
    assert ['h'] + "i" == "hi";
  }

  /** `write_byte_slice`: `val` copied to `ptr`, every other byte kept; out
      of range fails with nothing written. */
  function WriteBytes(mem: Memory, ptr: I32, val: seq<Byte>): (r: Result<Memory, ShmemError>)
    requires |val| < USIZE_LIMIT
    ensures r.Ok? <==> ptr >= 0 && ptr + |val| <= |mem|
    ensures r.Ok? ==> |r.value| == |mem|
    ensures r.Ok? ==> forall k :: 0 <= k < |val| ==> r.value[ptr + k] == val[k]
    ensures r.Ok? ==> forall a :: 0 <= a < |mem| && !(ptr <= a < ptr + |val|) ==> r.value[a] == mem[a]
  {
    var _ :- ExtractCells(mem, ptr, |val|);
    Ok(mem[..ptr] + val + mem[ptr + |val|..])
  }

  /** What was written is what is read back, from the same place. */
  lemma WriteThenExtract(mem: Memory, ptr: I32, val: seq<Byte>)
    requires |val| < USIZE_LIMIT
    requires WriteBytes(mem, ptr, val).Ok?
    ensures ExtractBytes(WriteBytes(mem, ptr, val).value, ptr, |val|) == Ok(val)
  {
    var m' := WriteBytes(mem, ptr, val).value;
    assert m'[ptr..ptr + |val|] == val;
  }

  /** 256^n. */
  function Pow256(n: nat): (p: nat)
    ensures p >= 1
  {
    if n == 0 then 1 else 256 * Pow256(n - 1)
  }

  lemma Pow256Widths()
    ensures Pow256(1) == 0x100
    ensures Pow256(4) == 0x1_0000_0000
    ensures Pow256(8) == 0x1_0000_0000_0000_0000
  {
    assert Pow256(2) == 0x1_0000;
    assert Pow256(4) == 0x1_0000_0000;
    assert Pow256(6) == 0x1_0000_0000_0000;
  }

  /** The value of a little-endian byte sequence. */
  function LeValue(bs: seq<Byte>): (v: nat)
    ensures v < Pow256(|bs|)
  {
    if bs == [] then 0 else bs[0] + 256 * LeValue(bs[1..])
  }

  /** `to_le_bytes` for an unsigned value of `n` bytes: least significant
      byte first. */
  function LeBytes(v: nat, n: nat): (r: seq<Byte>)
    requires v < Pow256(n)
    ensures |r| == n
    ensures LeValue(r) == v
  {
    if n == 0 then [] else [v % 256] + LeBytes(v / 256, n - 1)
  }

  /** Encoding is the only way to get a given byte sequence: the two
      directions of the little-endian round trip. */
  lemma {:induction false} LeBytesOfValue(bs: seq<Byte>)
    ensures LeBytes(LeValue(bs), |bs|) == bs
  {
    if bs != [] {
      LeBytesOfValue(bs[1..]);
      assert LeValue(bs) % 256 == bs[0];
      assert LeValue(bs) / 256 == LeValue(bs[1..]);
    }
  }

  /** Two's complement of a signed value of `n` bytes. */
  function ToTwos(v: int, n: nat): (u: nat)
    requires n > 0 && -((Pow256(n) / 2) as int) <= v < Pow256(n) / 2
    ensures u < Pow256(n)
    ensures v >= 0 <==> u < Pow256(n) / 2
  {
    Pow256Even(n);
    if v < 0 then v + Pow256(n) else v
  }

  lemma Pow256Even(n: nat)
    requires n > 0
    ensures Pow256(n) == 2 * (Pow256(n) / 2)
  {
    assert Pow256(n) == 2 * (128 * Pow256(n - 1));
  }

  /** The signed value a little-endian byte sequence stands for. */
  function FromTwos(u: nat, n: nat): (v: int)
    requires n > 0 && u < Pow256(n)
    ensures -((Pow256(n) / 2) as int) <= v < Pow256(n) / 2
  {
    Pow256Even(n);
    if u >= Pow256(n) / 2 then u - Pow256(n) else u
  }

  lemma FromToTwos(v: int, n: nat)
    requires n > 0 && -((Pow256(n) / 2) as int) <= v < Pow256(n) / 2
    ensures FromTwos(ToTwos(v, n), n) == v
  {
  }

  /** `write_i64`: the eight little-endian bytes of `val` at `ptr`. */
  function WriteI64(mem: Memory, ptr: I32, val: I64): (r: Result<Memory, ShmemError>)
    ensures r.Ok? <==> ptr >= 0 && ptr + 8 <= |mem|
    ensures r.Ok? ==> |r.value| == |mem| && r.value[ptr..ptr + 8] == LeBytes(ToTwos(val, 8), 8)
    ensures r.Ok? ==> forall a :: 0 <= a < |mem| && !(ptr <= a < ptr + 8) ==> r.value[a] == mem[a]
  {
    Pow256Widths();
    var r := WriteBytes(mem, ptr, LeBytes(ToTwos(val, 8), 8));
    if r.Ok? then WriteThenExtract(mem, ptr, LeBytes(ToTwos(val, 8), 8)); r else r
  }

  /** `write_i32`: the four little-endian bytes of `val` at `ptr`. */
  function WriteI32(mem: Memory, ptr: I32, val: I32): (r: Result<Memory, ShmemError>)
    ensures r.Ok? <==> ptr >= 0 && ptr + 4 <= |mem|
    ensures r.Ok? ==> |r.value| == |mem| && r.value[ptr..ptr + 4] == LeBytes(ToTwos(val, 4), 4)
    ensures r.Ok? ==> forall a :: 0 <= a < |mem| && !(ptr <= a < ptr + 4) ==> r.value[a] == mem[a]
  {
    Pow256Widths();
    var r := WriteBytes(mem, ptr, LeBytes(ToTwos(val, 4), 4));
    if r.Ok? then WriteThenExtract(mem, ptr, LeBytes(ToTwos(val, 4), 4)); r else r
  }

  /** `write_u8`: one byte at `ptr`. */
  function WriteU8(mem: Memory, ptr: I32, val: Byte): (r: Result<Memory, ShmemError>)
    ensures r.Ok? <==> 0 <= ptr < |mem|
    ensures r.Ok? ==> r.value == mem[ptr := val]
  {
    Pow256Widths();
    var r := WriteBytes(mem, ptr, LeBytes(val, 1));
    assert LeBytes(val, 1) == [val];
    r
  }

  /** Reading back the eight bytes written by `write_i64` and decoding them
      as a little-endian `i64` yields the value written. */
  lemma WriteI64ReadsBack(mem: Memory, ptr: I32, val: I64)
    requires WriteI64(mem, ptr, val).Ok?
    ensures var bs := ExtractBytes(WriteI64(mem, ptr, val).value, ptr, 8);
            bs.Ok? && (Pow256Widths(); FromTwos(LeValue(bs.value), 8)) == val
  {
    Pow256Widths();
    FromToTwos(val, 8);
  }

  /** The same for `write_i32` and four bytes. */
  lemma WriteI32ReadsBack(mem: Memory, ptr: I32, val: I32)
    requires WriteI32(mem, ptr, val).Ok?
    ensures var bs := ExtractBytes(WriteI32(mem, ptr, val).value, ptr, 4);
            bs.Ok? && (Pow256Widths(); FromTwos(LeValue(bs.value), 4)) == val
  {
    Pow256Widths();
    FromToTwos(val, 4);
  }

  /** -1 is stored as all ones, 1 as a leading one byte. */
  lemma LittleEndianExamples()
    ensures (Pow256Widths(); LeBytes(ToTwos(-1, 4), 4)) == [0xFF, 0xFF, 0xFF, 0xFF]
    ensures (Pow256Widths(); LeBytes(ToTwos(1, 4), 4)) == [1, 0, 0, 0]
  {
    Pow256Widths();
    assert ToTwos(-1, 4) == 0xFFFF_FFFF;
    assert LeBytes(0xFF, 1) == [0xFF] + LeBytes(0, 0);
    assert LeBytes(0xFFFF, 2) == [0xFF] + LeBytes(0xFF, 1);
    assert LeBytes(0xFF_FFFF, 3) == [0xFF] + LeBytes(0xFFFF, 2);
    assert LeBytes(0xFFFF_FFFF, 4) == [0xFF] + LeBytes(0xFF_FFFF, 3);
    assert ToTwos(1, 4) == 1;
    assert LeBytes(0, 1) == [0] + LeBytes(0, 0);
    assert LeBytes(0, 2) == [0] + LeBytes(0, 1);
    assert LeBytes(0, 3) == [0] + LeBytes(0, 2);
    assert LeBytes(1, 4) == [1] + LeBytes(0, 3);
  }

  /** A negative pointer never reaches guest memory. */
  lemma NegativePointerIsOutOfRange(mem: Memory, ptr: I32, len: Usize)
    requires ptr < 0
    ensures ExtractBytes(mem, ptr, len).Err?
    ensures ExtractCells(mem, ptr, len).error.ptr >= USIZE_LIMIT - I32_LIMIT
  {
  }
}
