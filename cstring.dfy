/** Bytes, NUL-terminated C strings and the C-locale `toupper`. */
module CString {

  /** A `char` read through `unsigned char`. */
  type byte = x: int | 0 <= x < 256

  const Nul: byte := 0

  /** A buffer holds a C string when it contains a NUL terminator. */
  predicate HasNul(buf: seq<byte>)
  {
    exists i :: 0 <= i < |buf| && buf[i] == Nul
  }

  /** `strlen`: the offset of the first NUL byte. */
  function Strlen(buf: seq<byte>): (n: nat)
    requires HasNul(buf)
    ensures n < |buf| && buf[n] == Nul
    ensures forall i :: 0 <= i < n ==> buf[i] != Nul
  {
    if buf[0] == Nul then 0
    else
      assert HasNul(buf[1..]) by {
        var i :| 0 <= i < |buf| && buf[i] == Nul;
        assert buf[1..][i - 1] == Nul;
      }
      1 + Strlen(buf[1..])
  }

  /** The characters of the C string held in buf, without the terminator. */
  function Chars(buf: seq<byte>): (s: seq<byte>)
    requires HasNul(buf)
    ensures Nul !in s && s + [Nul] <= buf
  {
    buf[..Strlen(buf)]
  }

  predicate IsLower(c: byte)
  {
    'a' as int <= c <= 'z' as int
  }

  predicate IsUpper(c: byte)
  {
    'A' as int <= c <= 'Z' as int
  }

  /** `toupper` in the C locale: a lower-case ASCII letter becomes its
      upper-case letter, and every other byte is left as it is. */
  function Upper(c: byte): (r: byte)
    ensures IsLower(c) ==> IsUpper(r) && r - 'A' as int == c - 'a' as int
    ensures !IsLower(c) ==> r == c
  {
    if IsLower(c) then c - ('a' as int - 'A' as int) else c
  }

  /** Upper-casing every byte of s. */
  function UpperAll(s: seq<byte>): (r: seq<byte>)
    ensures |r| == |s| && forall i :: 0 <= i < |s| ==> r[i] == Upper(s[i])
  {
    seq(|s|, i requires 0 <= i < |s| => Upper(s[i]))
  }

  /** Upper-casing twice is upper-casing once. */
  lemma UpperIdempotent(c: byte)
    ensures Upper(Upper(c)) == Upper(c)
  {
  }
}
