/** `getHashCodeByString`: a case-insensitive hash of a C string into an
    `unsigned int`. Each byte is folded in FNV-1 order (multiply by the FNV
    32-bit prime, then exclusive-or the upper-cased byte), starting from 0
    rather than from FNV's offset basis. */
module StringHash {
  import opened UInt32
  import opened CString

  const FnvPrime: u32 := 16777619

  /** One iteration of the loop: `hash *= 16777619; hash ^= toupper(c)`. */
  function Step(hash: u32, c: byte): (r: u32)
  {
    Xor32(Mul32(hash, FnvPrime), Upper(c))
  }

  /** The hash of the bytes s, defined on the last byte as the loop meets them. */
  function Hash(s: seq<byte>): (r: u32)
  {
    if |s| == 0 then 0 else Step(Hash(s[..|s| - 1]), s[|s| - 1])
  }

  /** The same computation read from the front: fold the bytes of s into the
      running value hash, first byte first. */
  function Fold(hash: u32, s: seq<byte>): (r: u32)
    decreases |s|
  {
    if |s| == 0 then hash else Fold(Step(hash, s[0]), s[1..])
  }

  /** The empty key hashes to 0 and a one-byte key to its upper-cased byte. */
  lemma HashShortKeys(c: byte)
    ensures Hash([]) == 0
    ensures Hash([c]) == Upper(c)
  {
    assert [c][..0] == [];
  }

  /** Appending a byte applies one more step to the hash so far. */
  lemma HashSnoc(s: seq<byte>, c: byte)
    ensures Hash(s + [c]) == Step(Hash(s), c)
  {
    assert (s + [c])[..|s|] == s;
  }

  /** The hash of s + t continues from the hash of s over the bytes of t. */
  lemma {:induction false} HashConcat(s: seq<byte>, t: seq<byte>)
    ensures Hash(s + t) == Fold(Hash(s), t)
    decreases |t|
  {
    if |t| > 0 {
      calc {
        Hash(s + t);
        { assert s + t == (s + [t[0]]) + t[1..]; }
        Hash((s + [t[0]]) + t[1..]);
        { HashConcat(s + [t[0]], t[1..]); }
        Fold(Hash(s + [t[0]]), t[1..]);
        { HashSnoc(s, t[0]); }
        Fold(Step(Hash(s), t[0]), t[1..]);
      }
    } else {
      assert s + t == s;
    }
  }

  /** Hash is the left fold of Step over the key, starting from 0. */
  lemma HashIsLeftFold(s: seq<byte>)
    ensures Hash(s) == Fold(0, s)
  {
    HashConcat([], s);
    assert [] + s == s;
  }

  /** Keys that are equal once every byte is upper-cased have the same hash. */
  lemma {:induction false} HashCaseInsensitive(s: seq<byte>, t: seq<byte>)
    requires UpperAll(s) == UpperAll(t)
    ensures Hash(s) == Hash(t)
  {
    if |s| > 0 {
      var n := |s| - 1;
      assert UpperAll(s[..n]) == UpperAll(t[..n]) by {
        forall i | 0 <= i < n ensures UpperAll(s[..n])[i] == UpperAll(t[..n])[i] {
          assert UpperAll(s)[i] == UpperAll(t)[i];
        }
      }
      assert Upper(s[n]) == Upper(t[n]) by {
        assert UpperAll(s)[n] == UpperAll(t)[n];
      }
      HashCaseInsensitive(s[..n], t[..n]);
    }
  }

  /** A key and its upper-cased copy have the same hash. */
  lemma HashOfUpperAll(s: seq<byte>)
    ensures Hash(UpperAll(s)) == Hash(s)
  {
    forall i | 0 <= i < |s| ensures UpperAll(UpperAll(s))[i] == UpperAll(s)[i] {
      UpperIdempotent(s[i]);
    }
    HashCaseInsensitive(UpperAll(s), s);
  }

  /** The number of bytes the loop visits: `unsigned int len = strlen(key)`
      keeps the length modulo 2^32. */
  function HashedLength(buf: seq<byte>): (n: u32)
    requires HasNul(buf)
    ensures n <= Strlen(buf)
    ensures (Strlen(buf) - n) % Modulus == 0
    ensures Strlen(buf) < Modulus ==> n == Strlen(buf)
  {
    Strlen(buf) % Modulus
  }

  /** getHashCodeByString(key): the key pointer walks from the first byte to
      `key + len`, and hash starts at 0. */
  method GetHashCodeByString(key: array<byte>) returns (hash: u32)
    requires HasNul(key[..])
    ensures hash == Hash(key[..HashedLength(key[..])])
    ensures Strlen(key[..]) < Modulus ==> hash == Hash(Chars(key[..]))
  {
    var len := HashedLength(key[..]);
    var i := 0;
    hash := 0;
    while i < len
      invariant i <= len
      invariant hash == Hash(key[..i])
    {
      hash := Mul32(hash, FnvPrime);
      hash := Xor32(hash, Upper(key[i]));
      HashSnoc(key[..i], key[i]);
      assert key[..i + 1] == key[..i] + [key[i]];
      i := i + 1;
    }
  }
}
