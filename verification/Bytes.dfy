/** Bytes, pages, little-endian numbers and C strings. */
module Bytes {

  type Byte = b: nat | b < 256

  const PAGE_SIZE: nat := 4096

  type Page = p: seq<Byte> | |p| == PAGE_SIZE witness seq(PAGE_SIZE, _ => 0)

  function ZeroPage(): Page {
    Zeros(PAGE_SIZE)
  }

  function Enc(n: nat, k: nat): (r: seq<Byte>)
    ensures |r| == k
    decreases k
  {
    if k == 0 then [] else [n % 256] + Enc(n / 256, k - 1)
  }

  function Dec(bs: seq<Byte>): nat {
    if bs == [] then 0 else bs[0] + 256 * Dec(bs[1..])
  }

  function Pow256(k: nat): nat {
    if k == 0 then 1 else 256 * Pow256(k - 1)
  }

  lemma {:induction false} DecEnc(n: nat, k: nat)
    requires n < Pow256(k)
    ensures Dec(Enc(n, k)) == n
    decreases k
  {
    if k > 0 {
      DecEnc(n / 256, k - 1);
      assert Enc(n, k)[1..] == Enc(n / 256, k - 1);
    }
  }

  function Zeros(n: nat): seq<Byte> {
    seq(n, _ => 0)
  }

  /** The C string at the head of `bs`: up to the first NUL. */
  function CString(bs: seq<Byte>): seq<Byte> {
    if bs == [] || bs[0] == 0 then [] else [bs[0]] + CString(bs[1..])
  }

  /** The padding ends the string: reading stops inside it, whatever lies above. */
  lemma {:induction false} CStringStops(buf: seq<Byte>, pad: nat, rest: seq<Byte>)
    requires pad > 0
    ensures CString(buf + Zeros(pad) + rest) == CString(buf)
  {
    var all := buf + Zeros(pad) + rest;
    if buf == [] {
      assert all[0] == 0;
    } else {
      assert all[1..] == buf[1..] + Zeros(pad) + rest;
      CStringStops(buf[1..], pad, rest);
    }
  }

  lemma {:induction false} CStringWhole(buf: seq<Byte>)
    requires 0 !in buf
    ensures CString(buf) == buf
  {
    if buf != [] {
      CStringWhole(buf[1..]);
    }
  }
}
