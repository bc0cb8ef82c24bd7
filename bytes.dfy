/** The byte images the archive and the hash work on. Every value is stored
    the way an x86-64 target lays it out in memory: little-endian, with
    `std::size_t` eight bytes wide. A `Codec` pairs the byte image of a
    fixed-size record with the way it is read back. */
module ByteCodecs {
  import opened Geometry

  /** A byte, as an unsigned value. */
  type Byte = n: nat | n < 256

  /** 256 to the power `k`: one past the largest value `k` bytes can hold. */
  function Pow256(k: nat): (p: nat)
    ensures p > 0
  {
    if k == 0 then 1 else 256 * Pow256(k - 1)
  }

  /** The four- and eight-byte limits are the 32- and 64-bit ones. */
  lemma Pow256Widths()
    ensures Pow256(4) == U32_LIMIT
    ensures Pow256(8) == U64_LIMIT
  {
  }

  /** The low `k` bytes of `n`, least significant first. For `n` beyond `k`
      bytes this is the truncating conversion to a `k`-byte integer. */
  function NatToBytes(n: nat, k: nat): (b: seq<Byte>)
    ensures |b| == k
  {
    if k == 0 then [] else [n % 256] + NatToBytes(n / 256, k - 1)
  }

  /** The unsigned integer a little-endian byte sequence holds. */
  function BytesToNat(b: seq<Byte>): (n: nat)
    ensures n < Pow256(|b|)
  {
    if |b| == 0 then 0 else b[0] + 256 * BytesToNat(b[1..])
  }

  /** Reading back the bytes of a value that fits gives the value. */
  lemma {:induction false} NatBytesRoundTrip(n: nat, k: nat)
    requires n < Pow256(k)
    ensures BytesToNat(NatToBytes(n, k)) == n
  {
    if k > 0 {
      var q, r := n / 256, n % 256;
      assert n == 256 * q + r;
      assert q < Pow256(k - 1);
      var b := NatToBytes(n, k);
      assert b[1..] == NatToBytes(q, k - 1);
      NatBytesRoundTrip(q, k - 1);
      assert b[0] == r;
    }
  }

  /** Writing out the value of a byte sequence gives the same bytes, so every
      byte image is the image of exactly one value. */
  lemma {:induction false} BytesNatRoundTrip(b: seq<Byte>)
    ensures NatToBytes(BytesToNat(b), |b|) == b
  {
    if |b| > 0 {
      var n := BytesToNat(b);
      BytesNatRoundTrip(b[1..]);
      assert n % 256 == b[0];
      assert n / 256 == BytesToNat(b[1..]);
    }
  }

  /** A 32-bit word (a float's bit pattern, a pixel) as its four bytes. */
  function WordBytes(w: bv32): (b: seq<Byte>)
    ensures |b| == 4
  {
    NatToBytes(w as nat, 4)
  }

  /** The 32-bit word four bytes hold. */
  function BytesWord(b: seq<Byte>): bv32
    requires |b| == 4
  {
    Pow256Widths();
    BytesToNat(b) as bv32
  }

  lemma WordRoundTrip(w: bv32)
    ensures BytesWord(WordBytes(w)) == w
  {
    Pow256Widths();
    NatBytesRoundTrip(w as nat, 4);
  }

  /** How a fixed-size record is written (`encode`, always `size` bytes for
      a value that `fits` its C++ type) and read back (`decode`). */
  datatype Codec<!T> = Codec(
    size: nat,
    fits: T -> bool,
    encode: T -> seq<Byte>,
    decode: seq<Byte> --> T)

  /** Every record that fits is written as `size` bytes from which `decode`
      gives it back, and `decode` accepts any `size` bytes. */
  ghost predicate ValidCodec<T(!new)>(c: Codec<T>) {
    && (forall b: seq<Byte> :: |b| == c.size ==> c.decode.requires(b))
    && (forall x :: c.fits(x) ==> |c.encode(x)| == c.size)
    && (forall x :: c.fits(x) ==> c.decode(c.encode(x)) == x)
  }

  /** The bytes of a contiguous array of records, as `write(data(), n *
      sizeof(T))` emits them. */
  function EncodeItems<T>(c: Codec<T>, xs: seq<T>): seq<Byte> {
    if |xs| == 0 then [] else c.encode(xs[0]) + EncodeItems(c, xs[1..])
  }

  /** The `count` records held by `count * size` bytes. */
  function DecodeItems<T(!new)>(c: Codec<T>, b: seq<Byte>, count: nat): (xs: seq<T>)
    requires ValidCodec(c)
    requires |b| == c.size * count
    ensures |xs| == count
  {
    if count == 0 then []
    else
      assert |b| == c.size + c.size * (count - 1);
      [c.decode(b[..c.size])] + DecodeItems(c, b[c.size..], count - 1)
  }

  lemma MulSucc(a: nat, m: nat)
    ensures a * (m + 1) == a + a * m
  {
  }

  /** An array of records that fit takes `size` bytes per record. */
  lemma {:induction false} EncodeItemsLength<T(!new)>(c: Codec<T>, xs: seq<T>)
    requires ValidCodec(c)
    requires forall i :: 0 <= i < |xs| ==> c.fits(xs[i])
    ensures |EncodeItems(c, xs)| == c.size * |xs|
  {
    if |xs| > 0 {
      var rest := xs[1..];
      assert forall i :: 0 <= i < |rest| ==> c.fits(rest[i]) by {
        forall i | 0 <= i < |rest| ensures c.fits(rest[i]) {
          assert rest[i] == xs[i + 1];
        }
      }
      EncodeItemsLength(c, rest);
      assert c.fits(xs[0]);
      MulSucc(c.size, |rest|);
    }
  }

  /** An array of records that fit reads back as the same records, in the
      same order. */
  lemma {:induction false} ItemsRoundTrip<T(!new)>(c: Codec<T>, xs: seq<T>)
    requires ValidCodec(c)
    requires forall i :: 0 <= i < |xs| ==> c.fits(xs[i])
    ensures |EncodeItems(c, xs)| == c.size * |xs|
    ensures DecodeItems(c, EncodeItems(c, xs), |xs|) == xs
  {
    EncodeItemsLength(c, xs);
    if |xs| > 0 {
      var rest := xs[1..];
      assert forall i :: 0 <= i < |rest| ==> c.fits(rest[i]) by {
        forall i | 0 <= i < |rest| ensures c.fits(rest[i]) {
          assert rest[i] == xs[i + 1];
        }
      }
      ItemsRoundTrip(c, rest);
      var head, tail := c.encode(xs[0]), EncodeItems(c, rest);
      var b := EncodeItems(c, xs);
      assert c.fits(xs[0]);
      assert b == head + tail;
      assert b[..c.size] == head;
      assert b[c.size..] == tail;
    }
  }

  /** `std::size_t`: eight bytes. */
  function SizeCodec(): (c: Codec<nat>)
    ensures ValidCodec(c)
  {
    Pow256Widths();
    var c := Codec(8, (n: nat) => n < U64_LIMIT, (n: nat) => NatToBytes(n, 8),
                   (b: seq<Byte>) requires |b| == 8 => BytesToNat(b));
    assert forall n: nat :: c.fits(n) ==> c.decode(c.encode(n)) == n by {
      forall n: nat | c.fits(n) ensures c.decode(c.encode(n)) == n {
        NatBytesRoundTrip(n, 8);
      }
    }
    c
  }

  /** `std::uint32_t`: four bytes. */
  function U32Codec(): (c: Codec<U32>)
    ensures ValidCodec(c)
  {
    Pow256Widths();
    var c := Codec(4, (n: U32) => true, (n: U32) => NatToBytes(n, 4),
                   (b: seq<Byte>) requires |b| == 4 => BytesToNat(b) as U32);
    assert forall n: U32 :: c.fits(n) ==> c.decode(c.encode(n)) == n by {
      forall n: U32 ensures c.decode(c.encode(n)) == n {
        NatBytesRoundTrip(n, 4);
      }
    }
    c
  }

  /** A 32-bit word: a `float` or a pixel. */
  function WordCodec(): (c: Codec<bv32>)
    ensures ValidCodec(c)
  {
    var c := Codec(4, (w: bv32) => true, (w: bv32) => WordBytes(w), (b: seq<Byte>) requires |b| == 4 => BytesWord(b));
    assert forall w: bv32 :: c.fits(w) ==> c.decode(c.encode(w)) == w by {
      forall w: bv32 ensures c.decode(c.encode(w)) == w {
        WordRoundTrip(w);
      }
    }
    c
  }
}
