/** Streaming SipHash-2-4 (section 2 of the SipHash paper): buffered updates against a one-shot definition. */
module SipHash {

  import opened Arithmetic

  datatype Words = Words(v0: bv64, v1: bv64, v2: bv64, v3: bv64)

  datatype Key = Key(k0: bv64, k1: bv64)

  function RotateLeft(x: bv64, b: nat): bv64
    requires 0 < b < 64
  {
    (x << b) | (x >> (64 - b))
  }

  function Add(x: bv64, y: bv64): bv64 {
    x + y
  }

  function Xor(x: bv64, y: bv64): bv64 {
    x ^ y
  }

  // SipRound, as the paper draws it: two columns, then two crossed ones.
  function Round(v: Words): Words {
    var a0 := Add(v.v0, v.v1);
    var a1 := Xor(RotateLeft(v.v1, 13), a0);
    var b0 := RotateLeft(a0, 32);
    var a2 := Add(v.v2, v.v3);
    var a3 := Xor(RotateLeft(v.v3, 16), a2);
    var c0 := Add(b0, a3);
    var b3 := Xor(RotateLeft(a3, 21), c0);
    var b2 := Add(a2, a1);
    var b1 := Xor(RotateLeft(a1, 17), b2);
    Words(c0, b1, RotateLeft(b2, 32), b3)
  }

  function Rounds(v: Words, n: nat): Words {
    if n == 0 then v else Round(Rounds(v, n - 1))
  }

  function Or(x: bv64, y: bv64): bv64 {
    x | y
  }

  function Shifted(b: bv8, k: nat): bv64
    requires k < 64
  {
    (b as bv64) << k
  }

  // A little-endian word.
  function Word(b: seq<bv8>): bv64
    requires |b| == 8
  {
    Or(Or(Or(Or(Or(Or(Or(Shifted(b[0], 0), Shifted(b[1], 8)), Shifted(b[2], 16)), Shifted(b[3], 24)),
                Shifted(b[4], 32)), Shifted(b[5], 40)), Shifted(b[6], 48)), Shifted(b[7], 56))
  }

  function Init(key: Key): Words {
    Words(0x736f6d6570736575 ^ key.k0, 0x646f72616e646f6d ^ key.k1, 0x6c7967656e657261 ^ key.k0, 0x7465646279746573 ^ key.k1)
  }

  function Absorb(v: Words, m: bv64): Words {
    var r := Rounds(v.(v3 := Xor(v.v3, m)), 2);
    r.(v0 := Xor(r.v0, m))
  }

  // The full words of a message, one after the other; what does not fill a word is left out.
  function Compressed(key: Key, bytes: seq<bv8>): Words
    decreases |bytes|
  {
    if |bytes| < 8 then Init(key) else Absorb(Compressed(key, bytes[..|bytes| - 8]), Word(bytes[|bytes| - 8..]))
  }

  lemma {:induction false} CompressedMore(key: Key, bytes: seq<bv8>, word: seq<bv8>)
    requires |word| == 8
    ensures Compressed(key, bytes + word) == Absorb(Compressed(key, bytes), Word(word))
  {
    hide Absorb, Word;
    assert (bytes + word)[..|bytes|] == bytes && (bytes + word)[|bytes|..] == word;
  }

  function Zeros(n: nat): seq<bv8> {
    seq(n, _ => 0)
  }

  // The last word: what is left of the message, zeros, and the low byte of the length.
  function Padded(tail: seq<bv8>, len: nat): (r: seq<bv8>)
    requires |tail| < 8
    ensures |r| == 8
  {
    tail + Zeros(7 - |tail|) + [(len % 0x100) as bv8]
  }

  function Finish(v: Words): bv64 {
    var r := Rounds(v.(v2 := Xor(v.v2, 0xff)), 4);
    Xor(Xor(Xor(r.v0, r.v1), r.v2), r.v3)
  }

  /** SipHash-2-4 of a whole message. */
  function Digest(key: Key, message: seq<bv8>): bv64 {
    var n := |message| - |message| % 8;
    Finish(Absorb(Compressed(key, message[..n]), Word(Padded(message[n..], |message|))))
  }

  // ---------- the streaming form ----------

  const COUNTER: nat := 0x1_0000_0000_0000_0000

  // struct siphash; p is the offset of the cursor, c a 64-bit counter.
  class State {
    var v: Words
    const buf: array<bv8>
    var p: nat
    var c: nat

    ghost const key: Key
    // What has been absorbed, in words.
    ghost var full: seq<bv8>
    ghost var words: nat

    // The state but for the cursor, which is past the end while a full buffer waits.
    ghost predicate Holds()
      reads this, buf
    {
      && buf.Length == 8 && p <= 8
      && |full| == 8 * words && c == |full| % COUNTER && v == Compressed(key, full)
    }

    ghost predicate Valid()
      reads this, buf
    {
      Holds() && p < 8
    }

    ghost function Message(): seq<bv8>
      requires Holds()
      reads this, buf
    {
      full + buf[..p]
    }

    // sip24_init
    constructor (key: Key)
      ensures Valid() && Message() == [] && this.key == key && fresh(buf)
    {
      this.key := key;
      v := Init(key);
      buf := new bv8[8];
      p, c, full, words := 0, 0, [], 0;
    }

    // sip_round
    method SipRound(rounds: nat)
      modifies this`v
      ensures v == Rounds(old(v), rounds)
    {
      hide Add, Xor, RotateLeft;
      for i := 0 to rounds
        invariant v == Rounds(old(v), i)
      {
        v := v.(v0 := Add(v.v0, v.v1));
        v := v.(v1 := RotateLeft(v.v1, 13));
        v := v.(v1 := Xor(v.v1, v.v0));
        v := v.(v0 := RotateLeft(v.v0, 32));

        v := v.(v2 := Add(v.v2, v.v3));
        v := v.(v3 := RotateLeft(v.v3, 16));
        v := v.(v3 := Xor(v.v3, v.v2));

        v := v.(v0 := Add(v.v0, v.v3));
        v := v.(v3 := RotateLeft(v.v3, 21));
        v := v.(v3 := Xor(v.v3, v.v0));

        v := v.(v2 := Add(v.v2, v.v1));
        v := v.(v1 := RotateLeft(v.v1, 17));
        v := v.(v1 := Xor(v.v1, v.v2));
        v := v.(v2 := RotateLeft(v.v2, 32));
      }
    }

    // The buffer is full: its word is absorbed.
    method AbsorbBuffer()
      requires Holds() && p == 8
      modifies this`v, this`p, this`c, this`full, this`words
      ensures Valid() && Message() == old(Message())
    {
      hide Rounds, Word, Compressed, Xor;
      var m := Word(buf[..]);
      CompressedMore(key, full, buf[..]);
      ModAdd(|full|, 8, COUNTER);
      v := v.(v3 := Xor(v.v3, m));
      SipRound(2);
      v := v.(v0 := Xor(v.v0, m));
      full, words := full + buf[..], words + 1;
      p := 0;
      c := (c + 8) % COUNTER;
    }

    /** sip24_update: the message grows, however it is cut into pieces. */
    method Update(src: seq<bv8>)
      requires Valid()
      modifies this`v, this`p, this`c, this`full, this`words, buf
      ensures Valid() && Message() == old(Message()) + src
    {
      hide Compressed;
      var i := 0;
      while true
        invariant i <= |src| && Valid() && Message() == old(Message()) + src[..i]
        decreases |src| - i
      {
        i := FillBuffer(src, i, old(Message()));
        if p < 8 {
          break;
        }
        AbsorbBuffer();
        if i >= |src| {
          break;
        }
      }
      assert src[..i] == src;
    }

    // The inner loop: bytes are copied until one side runs out.
    method FillBuffer(src: seq<bv8>, from: nat, ghost before: seq<bv8>) returns (i: nat)
      requires Valid() && from <= |src| && Message() == before + src[..from]
      modifies this`p, buf
      ensures from <= i <= |src| && Holds() && Message() == before + src[..i]
      ensures p == 8 ==> from < i
      ensures p < 8 ==> i == |src|
    {
      hide Compressed;
      i := from;
      while i < |src| && p < 8
        invariant from <= i <= |src| && Holds() && Message() == before + src[..i]
        invariant i == from ==> p < 8
      {
        assert src[..i + 1] == src[..i] + [src[i]];
        ghost var filled := buf[..p];
        buf[p] := src[i];
        p := p + 1;
        i := i + 1;
        assert buf[..p] == filled + [src[i - 1]];
        assert Message() == full + filled + [src[i - 1]];
      }
    }

    /** sip24_final: the digest of the message. */
    method Final() returns (digest: bv64)
      requires Valid()
      modifies this`v
      ensures digest == Digest(key, old(Message()))
    {
      hide Compressed, Rounds, Xor, Word, Padded, LastWord;
      ghost var message := Message();
      Cut(full, buf[..p], words);
      assert message[..|full|] == full && message[|full|..] == buf[..p];
      var left := p;
      var b := LastWord(buf[..left], (c + left) % 0x100);
      LowByte(|full|, left);
      LastWordIsPadded(buf[..left], |message|);
      v := v.(v3 := Xor(v.v3, b));
      SipRound(2);
      v := v.(v0 := Xor(v.v0, b));
      v := v.(v2 := Xor(v.v2, 0xff));
      SipRound(4);
      digest := Xor(Xor(Xor(v.v0, v.v1), v.v2), v.v3);
    }
  }

  // b << 56 keeps the low byte of the length; the cases of the switch fall through.
  function LastWord(tail: seq<bv8>, low: nat): bv64
    requires |tail| < 8 && low < 0x100
  {
    var b := Shifted(low as bv8, 56);
    var b := OrByte(b, tail, 6, 48);
    var b := OrByte(b, tail, 5, 40);
    var b := OrByte(b, tail, 4, 32);
    var b := OrByte(b, tail, 3, 24);
    var b := OrByte(b, tail, 2, 16);
    var b := OrByte(b, tail, 1, 8);
    OrByte(b, tail, 0, 0)
  }

  // One case of the switch.
  function OrByte(b: bv64, tail: seq<bv8>, i: nat, k: nat): bv64
    requires k < 64
  {
    if i < |tail| then Or(b, Shifted(tail[i], k)) else b
  }

  lemma {:induction false} OrPadded(b: bv64, tail: seq<bv8>, len: nat, i: nat, k: nat)
    requires |tail| < 8 && i < 7 && k < 64
    ensures OrByte(b, tail, i, k) == Or(b, Shifted(Padded(tail, len)[i], k))
  {
    hide Shifted, Or;
    if i >= |tail| {
      assert Padded(tail, len)[i] == 0;
      OrZero(b, k);
    }
  }

  lemma {:induction false} OrZero(b: bv64, k: nat)
    requires k < 64
    ensures Or(b, Shifted(0, k)) == b
  {
    assert Shifted(0, k) == 0;
  }

  lemma {:induction false} LastWordIsPadded(tail: seq<bv8>, len: nat)
    requires |tail| < 8
    ensures LastWord(tail, len % 0x100) == Word(Padded(tail, len))
  {
    hide Shifted, Or, OrByte, Padded;
    var p := Padded(tail, len);
    LowIsLast(tail, len);
    var b7 := Shifted(p[7], 56);
    OrPadded(b7, tail, len, 6, 48);
    var b6 := Or(b7, Shifted(p[6], 48));
    OrPadded(b6, tail, len, 5, 40);
    var b5 := Or(b6, Shifted(p[5], 40));
    OrPadded(b5, tail, len, 4, 32);
    var b4 := Or(b5, Shifted(p[4], 32));
    OrPadded(b4, tail, len, 3, 24);
    var b3 := Or(b4, Shifted(p[3], 24));
    OrPadded(b3, tail, len, 2, 16);
    var b2 := Or(b3, Shifted(p[2], 16));
    OrPadded(b2, tail, len, 1, 8);
    var b1 := Or(b2, Shifted(p[1], 8));
    OrPadded(b1, tail, len, 0, 0);
    OrBackwards(Shifted(p[0], 0), Shifted(p[1], 8), Shifted(p[2], 16), Shifted(p[3], 24), Shifted(p[4], 32), Shifted(p[5], 40),
                Shifted(p[6], 48), Shifted(p[7], 56));
  }

  lemma {:induction false} LowIsLast(tail: seq<bv8>, len: nat)
    requires |tail| < 8
    ensures Padded(tail, len)[7] == (len % 0x100) as bv8
  {
  }

  lemma {:induction false} OrBackwards(b0: bv64, b1: bv64, b2: bv64, b3: bv64, b4: bv64, b5: bv64, b6: bv64, b7: bv64)
    ensures Or(Or(Or(Or(Or(Or(Or(b0, b1), b2), b3), b4), b5), b6), b7) == Or(Or(Or(Or(Or(Or(Or(b7, b6), b5), b4), b3), b2), b1), b0)
  {
    hide Or;
    var s6 := Or(b7, b6);
    var s5 := Or(s6, b5);
    var s4 := Or(s5, b4);
    var s3 := Or(s4, b3);
    var s2 := Or(s3, b2);
    OrMoves(Or(Or(Or(Or(Or(b0, b1), b2), b3), b4), b5), b6, b7);
    OrMoves(Or(Or(Or(Or(b0, b1), b2), b3), b4), b5, s6);
    OrMoves(Or(Or(Or(b0, b1), b2), b3), b4, s5);
    OrMoves(Or(Or(b0, b1), b2), b3, s4);
    OrMoves(Or(b0, b1), b2, s3);
    OrMoves(b0, b1, s2);
    OrMoves(0, b0, Or(s2, b1));
  }

  lemma {:induction false} OrMoves(x: bv64, b: bv64, s: bv64)
    ensures Or(Or(x, b), s) == Or(x, Or(s, b)) && Or(b, s) == Or(s, b)
  {
  }

  lemma {:induction false} LowByte(n: nat, left: nat)
    ensures (n % COUNTER + left) % 0x100 == (n + left) % 0x100
  {
    DivMod(n, COUNTER);
    DivMod(n % COUNTER + left, 0x100);
    DivModIs(n + left, 0x100, (COUNTER / 0x100) * (n / COUNTER) + (n % COUNTER + left) / 0x100, (n % COUNTER + left) % 0x100);
  }

  // Where the last full word ends.
  lemma {:induction false} Cut(full: seq<bv8>, tail: seq<bv8>, words: nat)
    requires |full| == 8 * words && |tail| < 8
    ensures var n := |full + tail|; n - n % 8 == |full|
  {
    DivModIs(|full + tail|, 8, words, |tail|);
  }

  function Concat(pieces: seq<seq<bv8>>): seq<bv8> {
    if pieces == [] then [] else Concat(pieces[..|pieces| - 1]) + pieces[|pieces| - 1]
  }

  /** Any number of updates gives the digest of the whole message. */
  method HashPieces(key: Key, pieces: seq<seq<bv8>>) returns (digest: bv64)
    ensures digest == Digest(key, Concat(pieces))
  {
    hide Digest;
    var h := new State(key);
    for i := 0 to |pieces|
      invariant h.Valid() && h.Message() == Concat(pieces[..i]) && h.key == key && fresh(h) && fresh(h.buf)
    {
      h.Update(pieces[i]);
      assert pieces[..i + 1][..i] == pieces[..i];
    }
    assert pieces[..|pieces|] == pieces;
    digest := h.Final();
  }

  // siphash24
  method SipHash24(src: seq<bv8>, key: Key) returns (digest: bv64)
    ensures digest == Digest(key, src)
  {
    hide Digest;
    var h := new State(key);
    h.Update(src);
    assert [] + src == src;
    digest := h.Final();
  }
}
