/** Known answers of SipHash-2-4: the vectors for the empty message, for one full word and for fifteen bytes, with the
    key 00 01 .. 0f and the message 00 01 .. , one round after another. */
module SipHashVectors {

  import opened SipHash

  const KEY := Key(0x0706050403020100, 0x0f0e0d0c0b0a0908)

  // One round, from its eight sums and differences: s before and t after the rows are crossed.
  lemma {:induction false} RoundIs(v0: bv64, v1: bv64, v2: bv64, v3: bv64, s0: bv64, s1: bv64, s2: bv64, s3: bv64,
                                   t0: bv64, t3: bv64, t2: bv64, t1: bv64, u2: bv64)
    requires Add(v0, v1) == s0 && Xor(Left13(v1), s0) == s1
    requires Add(v2, v3) == s2 && Xor(Left16(v3), s2) == s3
    requires Add(Left32(s0), s3) == t0 && Xor(Left21(s3), t0) == t3
    requires Add(s2, s1) == t2 && Xor(Left17(s1), t2) == t1 && Left32(t2) == u2
    ensures Round(Words(v0, v1, v2, v3)) == Words(t0, t1, u2, t3)
  {
    hide Add, Xor, RotateLeft, Left13, Left16, Left17, Left21, Left32;
    Rotated(v1);
    Rotated(v3);
    Rotated(s0);
    Rotated(s1);
    Rotated(s3);
    Rotated(t2);
  }

  // The rotations with their amounts written out.
  function Left13(x: bv64): bv64 {
    (x << 13) | (x >> 51)
  }

  function Left16(x: bv64): bv64 {
    (x << 16) | (x >> 48)
  }

  function Left17(x: bv64): bv64 {
    (x << 17) | (x >> 47)
  }

  function Left21(x: bv64): bv64 {
    (x << 21) | (x >> 43)
  }

  function Left32(x: bv64): bv64 {
    (x << 32) | (x >> 32)
  }

  lemma {:induction false} Rotated(x: bv64)
    ensures RotateLeft(x, 13) == Left13(x) && RotateLeft(x, 16) == Left16(x) && RotateLeft(x, 17) == Left17(x)
    ensures RotateLeft(x, 21) == Left21(x) && RotateLeft(x, 32) == Left32(x)
  {
  }

  lemma {:induction false} WordIs(b: seq<bv8>, w: bv64)
    requires |b| == 8
    requires w == (b[0] as bv64) | ((b[1] as bv64) << 8) | ((b[2] as bv64) << 16) | ((b[3] as bv64) << 24)
                  | ((b[4] as bv64) << 32) | ((b[5] as bv64) << 40) | ((b[6] as bv64) << 48) | ((b[7] as bv64) << 56)
    ensures Word(b) == w
  {
    ByteShifted(b[0]);
    ByteShifted(b[1]);
    ByteShifted(b[2]);
    ByteShifted(b[3]);
    ByteShifted(b[4]);
    ByteShifted(b[5]);
    ByteShifted(b[6]);
    ByteShifted(b[7]);
    hide Shifted;
  }

  lemma {:induction false} ByteShifted(b: bv8)
    ensures Shifted(b, 0) == b as bv64 && Shifted(b, 8) == (b as bv64) << 8 && Shifted(b, 16) == (b as bv64) << 16
    ensures Shifted(b, 24) == (b as bv64) << 24 && Shifted(b, 32) == (b as bv64) << 32
    ensures Shifted(b, 40) == (b as bv64) << 40 && Shifted(b, 48) == (b as bv64) << 48
    ensures Shifted(b, 56) == (b as bv64) << 56
  {
  }

  lemma {:induction false} AbsorbIs(v: Words, m: bv64, start: Words, once: Words, twice: Words, done: Words)
    requires start == v.(v3 := Xor(v.v3, m)) && Round(start) == once && Round(once) == twice
    requires done == twice.(v0 := Xor(twice.v0, m))
    ensures Absorb(v, m) == done
  {
    hide Round, Xor;
    assert Rounds(start, 0) == start && Rounds(start, 1) == once && Rounds(start, 2) == twice;
  }

  lemma {:induction false} FinishIs(v: Words, start: Words, once: Words, twice: Words, thrice: Words, last: Words,
                                    digest: bv64)
    requires start == v.(v2 := Xor(v.v2, 0xff)) && Round(start) == once && Round(once) == twice
    requires Round(twice) == thrice && Round(thrice) == last
    requires digest == Xor(Xor(Xor(last.v0, last.v1), last.v2), last.v3)
    ensures Finish(v) == digest
  {
    hide Round, Xor;
    assert Rounds(start, 0) == start && Rounds(start, 1) == once && Rounds(start, 2) == twice;
    assert Rounds(start, 3) == thrice && Rounds(start, 4) == last;
  }

  lemma {:induction false} EmptyRound1()
    ensures Round(Words(0x7469686173716475, 0x6b617f6d656e6665, 0x6b7f62616d677361, 0x7b6b696e727e6c7b))
            == Words(0x6864848c93698c85, 0x41d43f143c94a7dc, 0xf3f94792d7121732, 0x5e52f75805987c12)
  {
    hide Round;
    RoundIs(0x7469686173716475, 0x6b617f6d656e6665, 0x6b7f62616d677361, 0x7b6b696e727e6c7b,
            0xdfcae7ced8dfcada, 0xf0274b63141367b6, 0xe6eacbcfdfe5dfdc, 0x8f84b9b1b39ea4b7,
            0x6864848c93698c85, 0x5e52f75805987c12, 0xd7121732f3f94792, 0x41d43f143c94a7dc,
            0xf3f94792d7121732);
  }

  lemma {:induction false} EmptyRound2()
    ensures Round(Words(0x6864848c93698c85, 0x41d43f143c94a7dc, 0xf3f94792d7121732, 0x5e52f75805987c12))
            == Words(0x75126fd44af190b6, 0x084235164f06142b, 0x37b04f9f8026831d, 0x1b4678cde8253231)
  {
    hide Round;
    RoundIs(0x6864848c93698c85, 0x41d43f143c94a7dc, 0xf3f94792d7121732, 0x5e52f75805987c12,
            0xaa38c3a0cffe3461, 0x2dda44325b05bc5b, 0x524c3eeadcaa9344, 0xa5143b72a0b8cd16,
            0x75126fd44af190b6, 0x1b4678cde8253231, 0x8026831d37b04f9f, 0x084235164f06142b,
            0x37b04f9f8026831d);
  }

  lemma {:induction false} EmptyLast()
    ensures Absorb(Words(0x7469686173716475, 0x6b617f6d656e6665, 0x6b7f62616d677361, 0x7b6b696e727e6c7b),
                   0x0000000000000000)
            == Words(0x75126fd44af190b6, 0x084235164f06142b, 0x37b04f9f8026831d, 0x1b4678cde8253231)
  {
    hide Round, Absorb, Add, RotateLeft;
    EmptyRound1();
    EmptyRound2();
    AbsorbIs(Words(0x7469686173716475, 0x6b617f6d656e6665, 0x6b7f62616d677361, 0x7b6b696e727e6c7b), 0x0000000000000000,
             Words(0x7469686173716475, 0x6b617f6d656e6665, 0x6b7f62616d677361, 0x7b6b696e727e6c7b),
             Words(0x6864848c93698c85, 0x41d43f143c94a7dc, 0xf3f94792d7121732, 0x5e52f75805987c12),
             Words(0x75126fd44af190b6, 0x084235164f06142b, 0x37b04f9f8026831d, 0x1b4678cde8253231),
             Words(0x75126fd44af190b6, 0x084235164f06142b, 0x37b04f9f8026831d, 0x1b4678cde8253231));
  }

  lemma {:induction false} EmptyRound3()
    ensures Round(Words(0x75126fd44af190b6, 0x084235164f06142b, 0x37b04f9f802683e2, 0x1b4678cde8253231))
            == Words(0xc432c529d7cf523f, 0x54f98392486c0c10, 0xc3be7bfc8eed3577, 0xcd398a7c7d6a155b)
  {
    hide Round;
    RoundIs(0x75126fd44af190b6, 0x084235164f06142b, 0x37b04f9f802683e2, 0x1b4678cde8253231,
            0x7d54a4ea99f7a4e1, 0x3bf66d0a5b72c5e9, 0x52f6c86d684bb613, 0x2a3b20485a7aad55,
            0xc432c529d7cf523f, 0xcd398a7c7d6a155b, 0x8eed3577c3be7bfc, 0x54f98392486c0c10,
            0xc3be7bfc8eed3577);
  }

  lemma {:induction false} EmptyRound4()
    ensures Round(Words(0xc432c529d7cf523f, 0x54f98392486c0c10, 0xc3be7bfc8eed3577, 0xcd398a7c7d6a155b))
            == Words(0x3abfd9623238d0a7, 0xb9354b5807b0cd1e, 0xae109fa2ba56082a, 0x58dcf8f2cf5b8028)
  {
    hide Round;
    RoundIs(0xc432c529d7cf523f, 0x54f98392486c0c10, 0xc3be7bfc8eed3577, 0xcd398a7c7d6a155b,
            0x192c48bc203b5e4f, 0x295e01b1a1b954d0, 0x90f806790c574ad2, 0x1a847b13190c87eb,
            0x3abfd9623238d0a7, 0x58dcf8f2cf5b8028, 0xba56082aae109fa2, 0xb9354b5807b0cd1e,
            0xae109fa2ba56082a);
  }

  lemma {:induction false} EmptyRound5()
    ensures Round(Words(0x3abfd9623238d0a7, 0xb9354b5807b0cd1e, 0xae109fa2ba56082a, 0x58dcf8f2cf5b8028))
            == Words(0x3808f593fd8ef548, 0x2913fc753c3d6609, 0xa9fbd335618bbce1, 0xc1c9c6a9ec5136a2)
  {
    hide Round;
    RoundIs(0x3abfd9623238d0a7, 0xb9354b5807b0cd1e, 0xae109fa2ba56082a, 0x58dcf8f2cf5b8028,
            0xf3f524ba39e99dc5, 0x5a9e244c204a4ae3, 0x06ed989589b18852, 0xfe1f57ce0999d08e,
            0x3808f593fd8ef548, 0xc1c9c6a9ec5136a2, 0x618bbce1a9fbd335, 0x2913fc753c3d6609,
            0xa9fbd335618bbce1);
  }

  lemma {:induction false} EmptyRound6()
    ensures Round(Words(0x3808f593fd8ef548, 0x2913fc753c3d6609, 0xa9fbd335618bbce1, 0xc1c9c6a9ec5136a2))
            == Words(0xe738d0dfdc9b2453, 0x214ac5771e0c4cd2, 0xe2ea71f68a57ef6d, 0x56f7bf1995ce89dd)
  {
    hide Round;
    RoundIs(0x3808f593fd8ef548, 0x2913fc753c3d6609, 0xa9fbd335618bbce1, 0xc1c9c6a9ec5136a2,
            0x611cf20939cc5b51, 0x1e92558e950d7e73, 0x6bc599df4ddcf383, 0xad6c758e7b7e324a,
            0xe738d0dfdc9b2453, 0x56f7bf1995ce89dd, 0x8a57ef6de2ea71f6, 0x214ac5771e0c4cd2,
            0xe2ea71f68a57ef6d);
  }

  lemma {:induction false} EmptyFinish()
    ensures Finish(Words(0x75126fd44af190b6, 0x084235164f06142b, 0x37b04f9f8026831d, 0x1b4678cde8253231))
            == 0x726fdb47dd0e0e31
  {
    hide Round, Finish, Add, RotateLeft;
    EmptyRound3();
    EmptyRound4();
    EmptyRound5();
    EmptyRound6();
    FinishIs(Words(0x75126fd44af190b6, 0x084235164f06142b, 0x37b04f9f8026831d, 0x1b4678cde8253231),
             Words(0x75126fd44af190b6, 0x084235164f06142b, 0x37b04f9f802683e2, 0x1b4678cde8253231),
             Words(0xc432c529d7cf523f, 0x54f98392486c0c10, 0xc3be7bfc8eed3577, 0xcd398a7c7d6a155b),
             Words(0x3abfd9623238d0a7, 0xb9354b5807b0cd1e, 0xae109fa2ba56082a, 0x58dcf8f2cf5b8028),
             Words(0x3808f593fd8ef548, 0x2913fc753c3d6609, 0xa9fbd335618bbce1, 0xc1c9c6a9ec5136a2),
             Words(0xe738d0dfdc9b2453, 0x214ac5771e0c4cd2, 0xe2ea71f68a57ef6d, 0x56f7bf1995ce89dd),
             0x726fdb47dd0e0e31);
  }

  lemma {:induction false} EmptyLastWord()
    ensures Word([0, 0, 0, 0, 0, 0, 0, 0]) == 0x0000000000000000
  {
    hide Word;
    WordIs([0, 0, 0, 0, 0, 0, 0, 0], 0x0000000000000000);
  }

  // 31 0e 0e dd 47 db 6f 72
  lemma {:induction false} EmptyDigest()
    ensures Digest(KEY, []) == 0x726fdb47dd0e0e31
  {
    hide Absorb, Finish, Word, Init;
    var message: seq<bv8> := [];
    assert message[..0] == [] && message[0..] == [];
    assert Padded([], 0) == [0, 0, 0, 0, 0, 0, 0, 0];
    Initial();
    EmptyLastWord();
    EmptyLast();
    EmptyFinish();
  }

  lemma {:induction false} OneWordRound1()
    ensures Round(Words(0x7469686173716475, 0x6b617f6d656e6665, 0x6b7f62616d677361, 0x7c6d6c6a717c6d7b))
            == Words(0x64668a929363847f, 0x4ed232083d9aa8dc, 0xf2f74892d8141a2e, 0x9290f9810552f4a8)
  {
    hide Round;
    RoundIs(0x7469686173716475, 0x6b617f6d656e6665, 0x6b7f62616d677361, 0x7c6d6c6a717c6d7b,
            0xdfcae7ced8dfcada, 0xf0274b63141367b6, 0xe7eccecbdee3e0dc, 0x8b86bfb7b3989cb1,
            0x64668a929363847f, 0x9290f9810552f4a8, 0xd8141a2ef2f74892, 0x4ed232083d9aa8dc,
            0xf2f74892d8141a2e);
  }

  lemma {:induction false} OneWordRound2()
    ensures Round(Words(0x64668a929363847f, 0x4ed232083d9aa8dc, 0xf2f74892d8141a2e, 0x9290f9810552f4a8))
            == Words(0x4d07749cdd0858e0, 0x0d52f6f62a4f59a4, 0x634cb3577b01fd3d, 0xa5224d6f55c7d9c8)
  {
    hide Round;
    RoundIs(0x64668a929363847f, 0x4ed232083d9aa8dc, 0xf2f74892d8141a2e, 0x9290f9810552f4a8,
            0xb338bc9ad0fe2d5b, 0xf579bb2985e5a481, 0x85884213dd670ed6, 0x7c09474129cf9c46,
            0x4d07749cdd0858e0, 0xa5224d6f55c7d9c8, 0x7b01fd3d634cb357, 0x0d52f6f62a4f59a4,
            0x634cb3577b01fd3d);
  }

  lemma {:induction false} OneWordFirst()
    ensures Absorb(Words(0x7469686173716475, 0x6b617f6d656e6665, 0x6b7f62616d677361, 0x7b6b696e727e6c7b),
                   0x0706050403020100)
            == Words(0x4a017198de0a59e0, 0x0d52f6f62a4f59a4, 0x634cb3577b01fd3d, 0xa5224d6f55c7d9c8)
  {
    hide Round, Absorb, Add, RotateLeft;
    OneWordRound1();
    OneWordRound2();
    AbsorbIs(Words(0x7469686173716475, 0x6b617f6d656e6665, 0x6b7f62616d677361, 0x7b6b696e727e6c7b), 0x0706050403020100,
             Words(0x7469686173716475, 0x6b617f6d656e6665, 0x6b7f62616d677361, 0x7c6d6c6a717c6d7b),
             Words(0x64668a929363847f, 0x4ed232083d9aa8dc, 0xf2f74892d8141a2e, 0x9290f9810552f4a8),
             Words(0x4d07749cdd0858e0, 0x0d52f6f62a4f59a4, 0x634cb3577b01fd3d, 0xa5224d6f55c7d9c8),
             Words(0x4a017198de0a59e0, 0x0d52f6f62a4f59a4, 0x634cb3577b01fd3d, 0xa5224d6f55c7d9c8));
  }

  lemma {:induction false} OneWordRound3()
    ensures Round(Words(0x4a017198de0a59e0, 0x0d52f6f62a4f59a4, 0x634cb3577b01fd3d, 0xad224d6f55c7d9c8))
            == Words(0x655a08856055e2b6, 0x42746857d06b1a26, 0xb437093319f9ae8d, 0xc57b28aa24be42bc)
  {
    hide Round;
    RoundIs(0x4a017198de0a59e0, 0x0d52f6f62a4f59a4, 0x634cb3577b01fd3d, 0xad224d6f55c7d9c8,
            0x5754688f0859b384, 0x098aadc6e36d322e, 0x106f00c6d0c9d705, 0x5d00550109017a27,
            0x655a08856055e2b6, 0xc57b28aa24be42bc, 0x19f9ae8db4370933, 0x42746857d06b1a26,
            0xb437093319f9ae8d);
  }

  lemma {:induction false} OneWordRound4()
    ensures Round(Words(0x655a08856055e2b6, 0x42746857d06b1a26, 0xb437093319f9ae8d, 0xc57b28aa24be42bc))
            == Words(0x81d9124023d9a50f, 0xb1d61ba5fb187052, 0x923c25dba476bcad, 0x2db69326a593860d)
  {
    hide Round;
    RoundIs(0x655a08856055e2b6, 0x42746857d06b1a26, 0xb437093319f9ae8d, 0xc57b28aa24be42bc,
            0xa7ce70dd30c0fcdc, 0x2ac48ad053843492, 0x79b231dd3eb7f149, 0x511815637c0b3432,
            0x81d9124023d9a50f, 0x2db69326a593860d, 0xa476bcad923c25db, 0xb1d61ba5fb187052,
            0x923c25dba476bcad);
  }

  lemma {:induction false} OneWordLast()
    ensures Absorb(Words(0x4a017198de0a59e0, 0x0d52f6f62a4f59a4, 0x634cb3577b01fd3d, 0xa5224d6f55c7d9c8),
                   0x0800000000000000)
            == Words(0x89d9124023d9a50f, 0xb1d61ba5fb187052, 0x923c25dba476bcad, 0x2db69326a593860d)
  {
    hide Round, Absorb, Add, RotateLeft;
    OneWordRound3();
    OneWordRound4();
    AbsorbIs(Words(0x4a017198de0a59e0, 0x0d52f6f62a4f59a4, 0x634cb3577b01fd3d, 0xa5224d6f55c7d9c8), 0x0800000000000000,
             Words(0x4a017198de0a59e0, 0x0d52f6f62a4f59a4, 0x634cb3577b01fd3d, 0xad224d6f55c7d9c8),
             Words(0x655a08856055e2b6, 0x42746857d06b1a26, 0xb437093319f9ae8d, 0xc57b28aa24be42bc),
             Words(0x81d9124023d9a50f, 0xb1d61ba5fb187052, 0x923c25dba476bcad, 0x2db69326a593860d),
             Words(0x89d9124023d9a50f, 0xb1d61ba5fb187052, 0x923c25dba476bcad, 0x2db69326a593860d));
  }

  lemma {:induction false} OneWordRound5()
    ensures Round(Words(0x89d9124023d9a50f, 0xb1d61ba5fb187052, 0x923c25dba476bc52, 0x2db69326a593860d))
            == Words(0x4bc631f307b69dcf, 0x9dc46a77ddb5740d, 0x5b0285bab8ce4b87, 0xd9ffb11efa93074c)
  {
    hide Round;
    RoundIs(0x89d9124023d9a50f, 0xb1d61ba5fb187052, 0x923c25dba476bc52, 0x2db69326a593860d,
            0x3baf2de61ef21561, 0xf8db928510f8435b, 0xbff2b9024a0a425f, 0x2cd41c91cc076fe9,
            0x4bc631f307b69dcf, 0xd9ffb11efa93074c, 0xb8ce4b875b0285ba, 0x9dc46a77ddb5740d,
            0x5b0285bab8ce4b87);
  }

  lemma {:induction false} OneWordRound6()
    ensures Round(Words(0x4bc631f307b69dcf, 0x9dc46a77ddb5740d, 0x5b0285bab8ce4b87, 0xd9ffb11efa93074c))
            == Words(0x6988de279db82796, 0x567e096ebb863cbf, 0xff4ef53799c69eb5, 0xe0de5b96f828a40f)
  {
    hide Round;
    RoundIs(0x4bc631f307b69dcf, 0x9dc46a77ddb5740d, 0x5b0285bab8ce4b87, 0xd9ffb11efa93074c,
            0xe98a9c6ae56c11dc, 0x64c467dc4beda264, 0x350236d9b36152d3, 0x841ccc4ab42d8b2c,
            0x6988de279db82796, 0xe0de5b96f828a40f, 0x99c69eb5ff4ef537, 0x567e096ebb863cbf,
            0xff4ef53799c69eb5);
  }

  lemma {:induction false} OneWordRound7()
    ensures Round(Words(0x6988de279db82796, 0x567e096ebb863cbf, 0xff4ef53799c69eb5, 0xe0de5b96f828a40f))
            == Words(0x14fa0d3bf5e789b0, 0x8095bce62dacd308, 0x3098d15ee15881b5, 0x083cb12fb6b0fec5)
  {
    hide Round;
    RoundIs(0x6988de279db82796, 0x567e096ebb863cbf, 0xff4ef53799c69eb5, 0xe0de5b96f828a40f,
            0xc006e796593e6455, 0x012b30e69ea98e9a, 0xe02d50ce91ef42c4, 0xbbbba8e635e0a21a,
            0x14fa0d3bf5e789b0, 0x083cb12fb6b0fec5, 0xe15881b53098d15e, 0x8095bce62dacd308,
            0x3098d15ee15881b5);
  }

  lemma {:induction false} OneWordRound8()
    ensures Round(Words(0x14fa0d3bf5e789b0, 0x8095bce62dacd308, 0x3098d15ee15881b5, 0x083cb12fb6b0fec5))
            == Words(0xad8e90f6fc5c5268, 0x45c7e1ccc8aa8902, 0x51fecd245ae89226, 0x2a424967f48d6d2e)
  {
    hide Round;
    RoundIs(0x14fa0d3bf5e789b0, 0x8095bce62dacd308, 0x3098d15ee15881b5, 0x083cb12fb6b0fec5,
            0x958fca2223945cb8, 0x22130f97b9f54caa, 0x38d5828e9809807a, 0x89fa343e66cc8846,
            0xad8e90f6fc5c5268, 0x2a424967f48d6d2e, 0x5ae8922651fecd24, 0x45c7e1ccc8aa8902,
            0x51fecd245ae89226);
  }

  lemma {:induction false} OneWordFinish()
    ensures Finish(Words(0x89d9124023d9a50f, 0xb1d61ba5fb187052, 0x923c25dba476bcad, 0x2db69326a593860d))
            == 0x93f5f5799a932462
  {
    hide Round, Finish, Add, RotateLeft;
    OneWordRound5();
    OneWordRound6();
    OneWordRound7();
    OneWordRound8();
    FinishIs(Words(0x89d9124023d9a50f, 0xb1d61ba5fb187052, 0x923c25dba476bcad, 0x2db69326a593860d),
             Words(0x89d9124023d9a50f, 0xb1d61ba5fb187052, 0x923c25dba476bc52, 0x2db69326a593860d),
             Words(0x4bc631f307b69dcf, 0x9dc46a77ddb5740d, 0x5b0285bab8ce4b87, 0xd9ffb11efa93074c),
             Words(0x6988de279db82796, 0x567e096ebb863cbf, 0xff4ef53799c69eb5, 0xe0de5b96f828a40f),
             Words(0x14fa0d3bf5e789b0, 0x8095bce62dacd308, 0x3098d15ee15881b5, 0x083cb12fb6b0fec5),
             Words(0xad8e90f6fc5c5268, 0x45c7e1ccc8aa8902, 0x51fecd245ae89226, 0x2a424967f48d6d2e),
             0x93f5f5799a932462);
  }

  lemma {:induction false} OneWordLastWord()
    ensures Word([0, 0, 0, 0, 0, 0, 0, 8]) == 0x0800000000000000
  {
    hide Word;
    WordIs([0, 0, 0, 0, 0, 0, 0, 8], 0x0800000000000000);
  }

  lemma {:induction false} CountingWord()
    ensures Word([0, 1, 2, 3, 4, 5, 6, 7]) == 0x0706050403020100
  {
    hide Word;
    WordIs([0, 1, 2, 3, 4, 5, 6, 7], 0x0706050403020100);
  }

  lemma {:induction false} OneWordCompressed()
    ensures Compressed(KEY, [0, 1, 2, 3, 4, 5, 6, 7])
            == Words(0x4a017198de0a59e0, 0x0d52f6f62a4f59a4, 0x634cb3577b01fd3d, 0xa5224d6f55c7d9c8)
  {
    hide Absorb, Word, Init;
    var bytes: seq<bv8> := [0, 1, 2, 3, 4, 5, 6, 7];
    assert bytes[..0] == [] && bytes[0..] == bytes;
    Initial();
    CountingWord();
    OneWordFirst();
  }

  // 62 24 93 9a 79 f5 f5 93
  lemma {:induction false} OneWordDigest()
    ensures Digest(KEY, [0, 1, 2, 3, 4, 5, 6, 7]) == 0x93f5f5799a932462
  {
    hide Absorb, Finish, Word, Compressed;
    var message: seq<bv8> := [0, 1, 2, 3, 4, 5, 6, 7];
    assert message[..8] == [0, 1, 2, 3, 4, 5, 6, 7] && message[8..] == [];
    assert Padded([], 8) == [0, 0, 0, 0, 0, 0, 0, 8];
    OneWordCompressed();
    OneWordLastWord();
    OneWordLast();
    OneWordFinish();
  }

  lemma {:induction false} FifteenBytesRound3()
    ensures Round(Words(0x4a017198de0a59e0, 0x0d52f6f62a4f59a4, 0x634cb3577b01fd3d, 0xaa2c40635ecdd0c0))
            == Words(0x557560fb6063d060, 0x4c8e675bd961133e, 0xbd3d002b1703a181, 0xfb9441179a4a7315)
  {
    hide Round;
    RoundIs(0x4a017198de0a59e0, 0x0d52f6f62a4f59a4, 0x634cb3577b01fd3d, 0xaa2c40635ecdd0c0,
            0x5754688f0859b384, 0x098aadc6e36d322e, 0x0d78f3bad9cfcdfd, 0x4d1bad77090f67d1,
            0x557560fb6063d060, 0xfb9441179a4a7315, 0x1703a181bd3d002b, 0x4c8e675bd961133e,
            0xbd3d002b1703a181);
  }

  lemma {:induction false} FifteenBytesRound4()
    ensures Round(Words(0x557560fb6063d060, 0x4c8e675bd961133e, 0xbd3d002b1703a181, 0xfb9441179a4a7315))
            == Words(0x338bbea7645fb759, 0x414fc3fb98efe374, 0xccf13ea527b9f4bd, 0x5293f5da84008f82)
  {
    hide Round;
    RoundIs(0x557560fb6063d060, 0x4c8e675bd961133e, 0xbd3d002b1703a181, 0xfb9441179a4a7315,
            0xa203c85739c4e39e, 0x6ee8b37b1ba32a0f, 0xb8d14142b14e1496, 0xf9c6db08c25bef02,
            0x338bbea7645fb759, 0x5293f5da84008f82, 0x27b9f4bdccf13ea5, 0x414fc3fb98efe374,
            0xccf13ea527b9f4bd);
  }

  lemma {:induction false} FifteenBytesLast()
    ensures Absorb(Words(0x4a017198de0a59e0, 0x0d52f6f62a4f59a4, 0x634cb3577b01fd3d, 0xa5224d6f55c7d9c8),
                   0x0f0e0d0c0b0a0908)
            == Words(0x3c85b3ab6f55be51, 0x414fc3fb98efe374, 0xccf13ea527b9f4bd, 0x5293f5da84008f82)
  {
    hide Round, Absorb, Add, RotateLeft;
    FifteenBytesRound3();
    FifteenBytesRound4();
    AbsorbIs(Words(0x4a017198de0a59e0, 0x0d52f6f62a4f59a4, 0x634cb3577b01fd3d, 0xa5224d6f55c7d9c8), 0x0f0e0d0c0b0a0908,
             Words(0x4a017198de0a59e0, 0x0d52f6f62a4f59a4, 0x634cb3577b01fd3d, 0xaa2c40635ecdd0c0),
             Words(0x557560fb6063d060, 0x4c8e675bd961133e, 0xbd3d002b1703a181, 0xfb9441179a4a7315),
             Words(0x338bbea7645fb759, 0x414fc3fb98efe374, 0xccf13ea527b9f4bd, 0x5293f5da84008f82),
             Words(0x3c85b3ab6f55be51, 0x414fc3fb98efe374, 0xccf13ea527b9f4bd, 0x5293f5da84008f82));
  }

  lemma {:induction false} FifteenBytesRound5()
    ensures Round(Words(0x3c85b3ab6f55be51, 0x414fc3fb98efe374, 0xccf13ea527b9f442, 0x5293f5da84008f82))
            == Words(0xf2a55244a20e48fe, 0xac5ad16ccc3ca6e4, 0x9fe5adb0a52f393a, 0xfd41d55e88f30308)
  {
    hide Round;
    RoundIs(0x3c85b3ab6f55be51, 0x414fc3fb98efe374, 0xccf13ea527b9f442, 0x5293f5da84008f82,
            0x7dd577a70845a1c5, 0x85aa04baf42b29ec, 0x1f85347fabba83c4, 0xea5fb07f2438d157,
            0xf2a55244a20e48fe, 0xfd41d55e88f30308, 0xa52f393a9fe5adb0, 0xac5ad16ccc3ca6e4,
            0x9fe5adb0a52f393a);
  }

  lemma {:induction false} FifteenBytesRound6()
    ensures Round(Words(0xf2a55244a20e48fe, 0xac5ad16ccc3ca6e4, 0x9fe5adb0a52f393a, 0xfd41d55e88f30308))
            == Words(0xb6c3fbdecc2ae4b4, 0x1638c86adc6b3cf0, 0x28b8b6ab62553d46, 0xc9465e86ec43eb95)
  {
    hide Round;
    RoundIs(0xf2a55244a20e48fe, 0xac5ad16ccc3ca6e4, 0x9fe5adb0a52f393a, 0xfd41d55e88f30308,
            0x9f0023b16e4aefe2, 0xc52dba36fa967a69, 0x9d27830f2e223c42, 0x48790bfc2d2ac103,
            0xb6c3fbdecc2ae4b4, 0xc9465e86ec43eb95, 0x62553d4628b8b6ab, 0x1638c86adc6b3cf0,
            0x28b8b6ab62553d46);
  }

  lemma {:induction false} FifteenBytesRound7()
    ensures Round(Words(0xb6c3fbdecc2ae4b4, 0x1638c86adc6b3cf0, 0x28b8b6ab62553d46, 0xc9465e86ec43eb95))
            == Words(0x58101b167209a5e6, 0xf8792ae75b66e7dd, 0x1da14c3ec7f0b4f7, 0x7624ba8a41bc4ad9)
  {
    hide Round;
    RoundIs(0xb6c3fbdecc2ae4b4, 0x1638c86adc6b3cf0, 0x28b8b6ab62553d46, 0xc9465e86ec43eb95,
            0xccfcc449a89621a4, 0xd5f19fc4cf082363, 0xf1ff15324e9928db, 0xaf79f971a50ce19d,
            0x58101b167209a5e6, 0x7624ba8a41bc4ad9, 0xc7f0b4f71da14c3e, 0xf8792ae75b66e7dd,
            0x1da14c3ec7f0b4f7);
  }

  lemma {:induction false} FifteenBytesRound8()
    ensures Round(Words(0x58101b167209a5e6, 0xf8792ae75b66e7dd, 0x1da14c3ec7f0b4f7, 0x7624ba8a41bc4ad9))
            == Words(0xf6bcd53893fecff1, 0x54b9964c7ea0d937, 0x1b38329c099bb55a, 0x1814bb89ad7be679)
  {
    hide Round;
    RoundIs(0x58101b167209a5e6, 0xf8792ae75b66e7dd, 0x1da14c3ec7f0b4f7, 0x7624ba8a41bc4ad9,
            0x508945fdcd708dc3, 0x75d5ae91118b32cc, 0x93c606c909acffd0, 0x294c4775437589f4,
            0xf6bcd53893fecff1, 0x1814bb89ad7be679, 0x099bb55a1b38329c, 0x54b9964c7ea0d937,
            0x1b38329c099bb55a);
  }

  lemma {:induction false} FifteenBytesFinish()
    ensures Finish(Words(0x3c85b3ab6f55be51, 0x414fc3fb98efe374, 0xccf13ea527b9f4bd, 0x5293f5da84008f82))
            == 0xa129ca6149be45e5
  {
    hide Round, Finish, Add, RotateLeft;
    FifteenBytesRound5();
    FifteenBytesRound6();
    FifteenBytesRound7();
    FifteenBytesRound8();
    FinishIs(Words(0x3c85b3ab6f55be51, 0x414fc3fb98efe374, 0xccf13ea527b9f4bd, 0x5293f5da84008f82),
             Words(0x3c85b3ab6f55be51, 0x414fc3fb98efe374, 0xccf13ea527b9f442, 0x5293f5da84008f82),
             Words(0xf2a55244a20e48fe, 0xac5ad16ccc3ca6e4, 0x9fe5adb0a52f393a, 0xfd41d55e88f30308),
             Words(0xb6c3fbdecc2ae4b4, 0x1638c86adc6b3cf0, 0x28b8b6ab62553d46, 0xc9465e86ec43eb95),
             Words(0x58101b167209a5e6, 0xf8792ae75b66e7dd, 0x1da14c3ec7f0b4f7, 0x7624ba8a41bc4ad9),
             Words(0xf6bcd53893fecff1, 0x54b9964c7ea0d937, 0x1b38329c099bb55a, 0x1814bb89ad7be679),
             0xa129ca6149be45e5);
  }

  lemma {:induction false} FifteenBytesLastWord()
    ensures Word([8, 9, 10, 11, 12, 13, 14, 15]) == 0x0f0e0d0c0b0a0908
  {
    hide Word;
    WordIs([8, 9, 10, 11, 12, 13, 14, 15], 0x0f0e0d0c0b0a0908);
  }

  // e5 45 be 49 61 ca 29 a1
  lemma {:induction false} FifteenBytesDigest()
    ensures Digest(KEY, [0, 1, 2, 3, 4, 5, 6, 7, 8, 9, 10, 11, 12, 13, 14]) == 0xa129ca6149be45e5
  {
    hide Absorb, Finish, Word, Compressed;
    var message: seq<bv8> := [0, 1, 2, 3, 4, 5, 6, 7, 8, 9, 10, 11, 12, 13, 14];
    assert message[..8] == [0, 1, 2, 3, 4, 5, 6, 7] && message[8..] == [8, 9, 10, 11, 12, 13, 14];
    assert Padded([8, 9, 10, 11, 12, 13, 14], 15) == [8, 9, 10, 11, 12, 13, 14, 15];
    OneWordCompressed();
    FifteenBytesLastWord();
    FifteenBytesLast();
    FifteenBytesFinish();
  }

  lemma {:induction false} Initial()
    ensures Init(KEY) == Words(0x7469686173716475, 0x6b617f6d656e6665, 0x6b7f62616d677361, 0x7b6b696e727e6c7b)
  {
  }

}
