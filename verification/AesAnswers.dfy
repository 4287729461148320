/** Known answers of the cipher: the examples of appendix C of FIPS 197, round by round. */
module AesAnswers {
  import opened AesTables
  import opened AesColumns
  import opened AesSpec
  import opened AesDiffusion

  /** Sixteen bytes as four columns, the top byte of a word first. */
  datatype Block = Block(c0: bv32, c1: bv32, c2: bv32, c3: bv32)

  const PLAIN := Block(0x00112233, 0x44556677, 0x8899aabb, 0xccddeeff)

  function Col(c: bv32): Column {
    Column(((c >> 24) & 0xff) as bv8, ((c >> 16) & 0xff) as bv8, ((c >> 8) & 0xff) as bv8, (c & 0xff) as bv8)
  }

  predicate Is(s: State, b: Block) {
    && ColumnOf(s, 0) == Col(b.c0) && ColumnOf(s, 1) == Col(b.c1)
    && ColumnOf(s, 2) == Col(b.c2) && ColumnOf(s, 3) == Col(b.c3)
  }

  predicate BlockIs(s: State, b: Block) {
    && Column(s[0], s[1], s[2], s[3]) == Col(b.c0) && Column(s[4], s[5], s[6], s[7]) == Col(b.c1)
    && Column(s[8], s[9], s[10], s[11]) == Col(b.c2) && Column(s[12], s[13], s[14], s[15]) == Col(b.c3)
  }

  predicate KeyIs(w: Bytes, r: nat, b: Block)
    requires 16 * r + 16 <= |w|
  {
    && KeyColumn(w, r, 0) == Col(b.c0) && KeyColumn(w, r, 1) == Col(b.c1)
    && KeyColumn(w, r, 2) == Col(b.c2) && KeyColumn(w, r, 3) == Col(b.c3)
  }

  function Substituted(x0: bv32, x1: bv32, x2: bv32, x3: bv32): Column {
    Column(SBox(Col(x0).b0), SBox(Col(x1).b1), SBox(Col(x2).b2), SBox(Col(x3).b3))
  }

  /** The state `x` with its bytes substituted and its rows shifted. */
  predicate Shifted(x: Block, y: Block) {
    && Col(y.c0) == Substituted(x.c0, x.c1, x.c2, x.c3) && Col(y.c1) == Substituted(x.c1, x.c2, x.c3, x.c0)
    && Col(y.c2) == Substituted(x.c2, x.c3, x.c0, x.c1) && Col(y.c3) == Substituted(x.c3, x.c0, x.c1, x.c2)
  }

  /** Byte by byte. */
  lemma ShiftedBytes(x: Block, y: Block, c0: Column, c1: Column, c2: Column, c3: Column)
    requires Col(y.c0) == c0 && Col(y.c1) == c1 && Col(y.c2) == c2 && Col(y.c3) == c3
    requires c0.b0 == SBox(Col(x.c0).b0) && c0.b1 == SBox(Col(x.c1).b1)
    requires c0.b2 == SBox(Col(x.c2).b2) && c0.b3 == SBox(Col(x.c3).b3)
    requires c1.b0 == SBox(Col(x.c1).b0) && c1.b1 == SBox(Col(x.c2).b1)
    requires c1.b2 == SBox(Col(x.c3).b2) && c1.b3 == SBox(Col(x.c0).b3)
    requires c2.b0 == SBox(Col(x.c2).b0) && c2.b1 == SBox(Col(x.c3).b1)
    requires c2.b2 == SBox(Col(x.c0).b2) && c2.b3 == SBox(Col(x.c1).b3)
    requires c3.b0 == SBox(Col(x.c3).b0) && c3.b1 == SBox(Col(x.c0).b1)
    requires c3.b2 == SBox(Col(x.c1).b2) && c3.b3 == SBox(Col(x.c2).b3)
    ensures Shifted(x, y)
  {
    hide SBox, Col;
  }

  function MixedColumn(c: Column): Column {
    Column(Xor4(Times2(c.b0), Times3(c.b1), c.b2, c.b3), Xor4(c.b0, Times2(c.b1), Times3(c.b2), c.b3),
           Xor4(c.b0, c.b1, Times2(c.b2), Times3(c.b3)), Xor4(Times3(c.b0), c.b1, c.b2, Times2(c.b3)))
  }

  lemma MixedColumnIs(c: Column)
    ensures CoefMult(MIX, c) == MixedColumn(c)
  {
    Products(c.b0);
    Products(c.b1);
    Products(c.b2);
    Products(c.b3);
    hide Gmult, Xor4, Times2, Times3;
  }

  lemma Products(b: bv8)
    ensures Gmult(1, b) == b && Gmult(2, b) == Times2(b) && Gmult(3, b) == Times3(b)
  {
    GmultIsProduct(1, b);
    GmultIsProduct(2, b);
    GmultIsProduct(3, b);
    hide Gmult, Times2, Times3;
  }

  /** The state `x` with its columns mixed and the round key added. */
  predicate Mixed(x: Block, k: Block, y: Block) {
    && Col(y.c0) == AddColumn(MixedColumn(Col(x.c0)), Col(k.c0))
    && Col(y.c1) == AddColumn(MixedColumn(Col(x.c1)), Col(k.c1))
    && Col(y.c2) == AddColumn(MixedColumn(Col(x.c2)), Col(k.c2))
    && Col(y.c3) == AddColumn(MixedColumn(Col(x.c3)), Col(k.c3))
  }

  predicate Added(x: Block, k: Block, y: Block) {
    && Col(y.c0) == AddColumn(Col(x.c0), Col(k.c0)) && Col(y.c1) == AddColumn(Col(x.c1), Col(k.c1))
    && Col(y.c2) == AddColumn(Col(x.c2), Col(k.c2)) && Col(y.c3) == AddColumn(Col(x.c3), Col(k.c3))
  }

  lemma GatheredColumns(s: State, x: Block, y: Block)
    requires Is(s, x) && Shifted(x, y)
    ensures Gathered(s, 0) == Col(y.c0) && Gathered(s, 1) == Col(y.c1)
    ensures Gathered(s, 2) == Col(y.c2) && Gathered(s, 3) == Col(y.c3)
  {
    hide SBox, Col;
  }

  lemma OneRound(s: State, w: Bytes, r: nat, x: Block, g: Block, k: Block, y: Block)
    requires r > 0 && 16 * r + 16 <= |w|
    requires Is(Forward(s, w, r - 1), x) && Shifted(x, g) && KeyIs(w, r, k) && Mixed(g, k, y)
    ensures Is(Forward(s, w, r), y)
  {
    var f := Forward(s, w, r - 1);
    GatheredColumns(f, x, g);
    MixedColumnIs(Col(g.c0));
    MixedColumnIs(Col(g.c1));
    MixedColumnIs(Col(g.c2));
    MixedColumnIs(Col(g.c3));
    assert Forward(s, w, r) == Round(f, w, r);
    hide Forward, Round, Shifted, Gathered, CoefMult, MixedColumn, AddColumn, Col, KeyColumn, ColumnOf;
    ColumnOfRound(f, w, r, 0);
    ColumnOfRound(f, w, r, 1);
    ColumnOfRound(f, w, r, 2);
    ColumnOfRound(f, w, r, 3);
  }

  lemma LastIs(s: State, w: Bytes, r: nat, x: Block, g: Block, k: Block, y: Block)
    requires r > 0 && 16 * r + 16 <= |w|
    requires Is(Forward(s, w, r - 1), x) && Shifted(x, g) && KeyIs(w, r, k) && Added(g, k, y)
    ensures Is(LastRound(Forward(s, w, r - 1), w, r), y)
  {
    var f := Forward(s, w, r - 1);
    GatheredColumns(f, x, g);
    hide Forward, LastRound, Shifted, Gathered, CoefMult, AddColumn, Col, KeyColumn, ColumnOf;
    ColumnOfRound(f, w, r, 0);
    ColumnOfRound(f, w, r, 1);
    ColumnOfRound(f, w, r, 2);
    ColumnOfRound(f, w, r, 3);
  }

  lemma FirstKey(s: State, w: Bytes, x: Block, k: Block, y: Block)
    requires |w| >= 16 && Is(s, x) && KeyIs(w, 0, k) && Added(x, k, y)
    ensures Is(Forward(s, w, 0), y)
  {
    StartKey(s, w);
    hide Forward, AddRoundKey, AddColumn, Col, KeyColumn, ColumnOf;
    KeyAddedAt(s, w, 0, 0);
    KeyAddedAt(s, w, 0, 1);
    KeyAddedAt(s, w, 0, 2);
    KeyAddedAt(s, w, 0, 3);
  }

  lemma LoadIs(block: State, x: Block)
    requires BlockIs(block, x)
    ensures Is(Load(block), x)
  {
    hide Col;
  }

  lemma StoreIs(s: State, y: Block)
    requires Is(s, y)
    ensures BlockIs(Store(s), y)
  {
    hide Col;
  }

  // ---------------------------------------------------------------- 128 bits, appendix C.1

  const K128_0 := Block(0x00010203, 0x04050607, 0x08090a0b, 0x0c0d0e0f)
  const K128_1 := Block(0xd6aa74fd, 0xd2af72fa, 0xdaa678f1, 0xd6ab76fe)
  const K128_2 := Block(0xb692cf0b, 0x643dbdf1, 0xbe9bc500, 0x6830b3fe)
  const K128_3 := Block(0xb6ff744e, 0xd2c2c9bf, 0x6c590cbf, 0x0469bf41)
  const K128_4 := Block(0x47f7f7bc, 0x95353e03, 0xf96c32bc, 0xfd058dfd)
  const K128_5 := Block(0x3caaa3e8, 0xa99f9deb, 0x50f3af57, 0xadf622aa)
  const K128_6 := Block(0x5e390f7d, 0xf7a69296, 0xa7553dc1, 0x0aa31f6b)
  const K128_7 := Block(0x14f9701a, 0xe35fe28c, 0x440adf4d, 0x4ea9c026)
  const K128_8 := Block(0x47438735, 0xa41c65b9, 0xe016baf4, 0xaebf7ad2)
  const K128_9 := Block(0x549932d1, 0xf0855768, 0x1093ed9c, 0xbe2c974e)
  const K128_10 := Block(0x13111d7f, 0xe3944a17, 0xf307a78b, 0x4d2b30c5)

  const S128_0 := Block(0x00102030, 0x40506070, 0x8090a0b0, 0xc0d0e0f0)
  const S128_1 := Block(0x89d810e8, 0x855ace68, 0x2d1843d8, 0xcb128fe4)
  const S128_2 := Block(0x4915598f, 0x55e5d7a0, 0xdaca94fa, 0x1f0a63f7)
  const S128_3 := Block(0xfa636a28, 0x25b339c9, 0x40668a31, 0x57244d17)
  const S128_4 := Block(0x24724023, 0x6966b3fa, 0x6ed27532, 0x88425b6c)
  const S128_5 := Block(0xc81677bc, 0x9b7ac93b, 0x25027992, 0xb0261996)
  const S128_6 := Block(0xc62fe109, 0xf75eedc3, 0xcc79395d, 0x84f9cf5d)
  const S128_7 := Block(0xd1876c0f, 0x79c4300a, 0xb45594ad, 0xd66ff41f)
  const S128_8 := Block(0xfde3bad2, 0x05e5d0d7, 0x3547964e, 0xf1fe37f1)
  const S128_9 := Block(0xbd6e7c3d, 0xf2b5779e, 0x0b61216e, 0x8b10b689)
  const S128_10 := Block(0x69c4e0d8, 0x6a7b0430, 0xd8cdb780, 0x70b4c55a)

  const G128_1 := Block(0x6353e08c, 0x0960e104, 0xcd70b751, 0xbacad0e7)
  const G128_2 := Block(0xa7be1a69, 0x97ad739b, 0xd8c9ca45, 0x1f618b61)
  const G128_3 := Block(0x3bd92268, 0xfc74fb73, 0x5767cbe0, 0xc0590e2d)
  const G128_4 := Block(0x2d6d7ef0, 0x3f33e334, 0x093602dd, 0x5bfb12c7)
  const G128_5 := Block(0x36339d50, 0xf9b53926, 0x9f2c092d, 0xc4406d23)
  const G128_6 := Block(0xe8dab690, 0x1477d465, 0x3ff7f5e2, 0xe747dd4f)
  const G128_7 := Block(0xb458124c, 0x68b68a01, 0x4b99f82e, 0x5f15554c)
  const G128_8 := Block(0x3e1c22c0, 0xb6fcbf76, 0x8da85067, 0xf6170495)
  const G128_9 := Block(0x54d990a1, 0x6ba09ab5, 0x96bbf40e, 0xa111702f)
  const G128_10 := Block(0x7ad5fda7, 0x89ef4e27, 0x2bca100b, 0x3d9ff59f)

  predicate Keys128(w: Bytes) {
    |w| == 176
    && KeyIs(w, 0, K128_0) && KeyIs(w, 1, K128_1) && KeyIs(w, 2, K128_2) && KeyIs(w, 3, K128_3)
    && KeyIs(w, 4, K128_4) && KeyIs(w, 5, K128_5) && KeyIs(w, 6, K128_6) && KeyIs(w, 7, K128_7)
    && KeyIs(w, 8, K128_8) && KeyIs(w, 9, K128_9) && KeyIs(w, 10, K128_10)
  }

  lemma Step128_1()
    ensures Shifted(S128_0, G128_1) && Mixed(G128_1, K128_1, S128_1)
  {
    var g := G128_1;
    ShiftedBytes(S128_0, g, Col(g.c0), Col(g.c1), Col(g.c2), Col(g.c3));
    hide Shifted;
  }

  lemma Step128_2()
    ensures Shifted(S128_1, G128_2) && Mixed(G128_2, K128_2, S128_2)
  {
    var g := G128_2;
    ShiftedBytes(S128_1, g, Col(g.c0), Col(g.c1), Col(g.c2), Col(g.c3));
    hide Shifted;
  }

  lemma Step128_3()
    ensures Shifted(S128_2, G128_3) && Mixed(G128_3, K128_3, S128_3)
  {
    var g := G128_3;
    ShiftedBytes(S128_2, g, Col(g.c0), Col(g.c1), Col(g.c2), Col(g.c3));
    hide Shifted;
  }

  lemma Step128_4()
    ensures Shifted(S128_3, G128_4) && Mixed(G128_4, K128_4, S128_4)
  {
    var g := G128_4;
    ShiftedBytes(S128_3, g, Col(g.c0), Col(g.c1), Col(g.c2), Col(g.c3));
    hide Shifted;
  }

  lemma Step128_5()
    ensures Shifted(S128_4, G128_5) && Mixed(G128_5, K128_5, S128_5)
  {
    var g := G128_5;
    ShiftedBytes(S128_4, g, Col(g.c0), Col(g.c1), Col(g.c2), Col(g.c3));
    hide Shifted;
  }

  lemma Step128_6()
    ensures Shifted(S128_5, G128_6) && Mixed(G128_6, K128_6, S128_6)
  {
    var g := G128_6;
    ShiftedBytes(S128_5, g, Col(g.c0), Col(g.c1), Col(g.c2), Col(g.c3));
    hide Shifted;
  }

  lemma Step128_7()
    ensures Shifted(S128_6, G128_7) && Mixed(G128_7, K128_7, S128_7)
  {
    var g := G128_7;
    ShiftedBytes(S128_6, g, Col(g.c0), Col(g.c1), Col(g.c2), Col(g.c3));
    hide Shifted;
  }

  lemma Step128_8()
    ensures Shifted(S128_7, G128_8) && Mixed(G128_8, K128_8, S128_8)
  {
    var g := G128_8;
    ShiftedBytes(S128_7, g, Col(g.c0), Col(g.c1), Col(g.c2), Col(g.c3));
    hide Shifted;
  }

  lemma Step128_9()
    ensures Shifted(S128_8, G128_9) && Mixed(G128_9, K128_9, S128_9)
  {
    var g := G128_9;
    ShiftedBytes(S128_8, g, Col(g.c0), Col(g.c1), Col(g.c2), Col(g.c3));
    hide Shifted;
  }

  lemma Ends128()
    ensures Added(PLAIN, K128_0, S128_0)
    ensures Shifted(S128_9, G128_10) && Added(G128_10, K128_10, S128_10)
  {
    var g := G128_10;
    ShiftedBytes(S128_9, g, Col(g.c0), Col(g.c1), Col(g.c2), Col(g.c3));
    hide Shifted;
  }

  lemma Rounds128(s: State, w: Bytes)
    requires Keys128(w) && Is(s, PLAIN)
    ensures Is(Forward(s, w, 9), S128_9)
  {
    hide Is, KeyIs, Forward, Shifted, Mixed, Added;
    Ends128();
    FirstKey(s, w, PLAIN, K128_0, S128_0);
    Step128_1();
    OneRound(s, w, 1, S128_0, G128_1, K128_1, S128_1);
    Step128_2();
    OneRound(s, w, 2, S128_1, G128_2, K128_2, S128_2);
    Step128_3();
    OneRound(s, w, 3, S128_2, G128_3, K128_3, S128_3);
    Step128_4();
    OneRound(s, w, 4, S128_3, G128_4, K128_4, S128_4);
    Step128_5();
    OneRound(s, w, 5, S128_4, G128_5, K128_5, S128_5);
    Step128_6();
    OneRound(s, w, 6, S128_5, G128_6, K128_6, S128_6);
    Step128_7();
    OneRound(s, w, 7, S128_6, G128_7, K128_7, S128_7);
    Step128_8();
    OneRound(s, w, 8, S128_7, G128_8, K128_8, S128_8);
    Step128_9();
    OneRound(s, w, 9, S128_8, G128_9, K128_9, S128_9);
  }

  /** The cipher on the block of appendix C.1, with every expanded key that holds the words printed there. */
  lemma Answer128(block: State, w: Bytes)
    requires Keys128(w) && BlockIs(block, PLAIN)
    ensures BlockIs(Cipher(block, w, 10), Block(0x69c4e0d8, 0x6a7b0430, 0xd8cdb780, 0x70b4c55a))
  {
    hide Is, KeyIs, Forward, Load, Store, BlockIs, LastRound, Shifted, Mixed, Added;
    LoadIs(block, PLAIN);
    Rounds128(Load(block), w);
    Ends128();
    LastIs(Load(block), w, 10, S128_9, G128_10, K128_10, S128_10);
    StoreIs(LastRound(Forward(Load(block), w, 9), w, 10), S128_10);
  }

  // ---------------------------------------------------------------- 192 bits, appendix C.2

  const K192_0 := Block(0x00010203, 0x04050607, 0x08090a0b, 0x0c0d0e0f)
  const K192_1 := Block(0x10111213, 0x14151617, 0x5846f2f9, 0x5c43f4fe)
  const K192_2 := Block(0x544afef5, 0x5847f0fa, 0x4856e2e9, 0x5c43f4fe)
  const K192_3 := Block(0x40f949b3, 0x1cbabd4d, 0x48f043b8, 0x10b7b342)
  const K192_4 := Block(0x58e151ab, 0x04a2a555, 0x7effb541, 0x6245080c)
  const K192_5 := Block(0x2ab54bb4, 0x3a02f8f6, 0x62e3a95d, 0x66410c08)
  const K192_6 := Block(0xf5018572, 0x97448d7e, 0xbdf1c6ca, 0x87f33e3c)
  const K192_7 := Block(0xe5109761, 0x83519b69, 0x34157c9e, 0xa351f1e0)
  const K192_8 := Block(0x1ea0372a, 0x99530916, 0x7c439e77, 0xff12051e)
  const K192_9 := Block(0xdd7e0e88, 0x7e2fff68, 0x608fc842, 0xf9dcc154)
  const K192_10 := Block(0x859f5f23, 0x7a8d5a3d, 0xc0c02952, 0xbeefd63a)
  const K192_11 := Block(0xde601e78, 0x27bcdf2c, 0xa223800f, 0xd8aeda32)
  const K192_12 := Block(0xa4970a33, 0x1a78dc09, 0xc418c271, 0xe3a41d5d)

  const S192_0 := Block(0x00102030, 0x40506070, 0x8090a0b0, 0xc0d0e0f0)
  const S192_1 := Block(0x4f637606, 0x43e0aa85, 0xaff8c9d0, 0x41fa0de4)
  const S192_2 := Block(0xcb02818c, 0x17d2af9c, 0x62aa6442, 0x8bb25fd7)
  const S192_3 := Block(0xf75c7778, 0xa327c8ed, 0x8cfebfc1, 0xa6c37f53)
  const S192_4 := Block(0x22ffc916, 0xa8147441, 0x6496f19c, 0x64ae2532)
  const S192_5 := Block(0x80121e07, 0x76fd1d8a, 0x8d8c31bc, 0x965d1fee)
  const S192_6 := Block(0x671ef1fd, 0x4e2a1e03, 0xdfdcb1ef, 0x3d789b30)
  const S192_7 := Block(0x0c0370d0, 0x0c01e622, 0x166b8acc, 0xd6db3a2c)
  const S192_8 := Block(0x7255dad3, 0x0fb80310, 0xe00d6c6b, 0x40d0527c)
  const S192_9 := Block(0xa906b254, 0x968af4e9, 0xb4bdb2d2, 0xf0c44336)
  const S192_10 := Block(0x88ec930e, 0xf5e7e4b6, 0xcc32f4c9, 0x06d29414)
  const S192_11 := Block(0xafb73eeb, 0x1cd1b851, 0x62280f27, 0xfb20d585)
  const S192_12 := Block(0xdda97ca4, 0x864cdfe0, 0x6eaf70a0, 0xec0d7191)

  const G192_1 := Block(0x6353e08c, 0x0960e104, 0xcd70b751, 0xbacad0e7)
  const G192_2 := Block(0x84e1dd69, 0x1a41d76f, 0x792d3897, 0x83fbac70)
  const G192_3 := Block(0x1fb5430e, 0xf0accf64, 0xaa370cde, 0x3d77792c)
  const G192_4 := Block(0x68cc08ed, 0x0abbd2bc, 0x642ef555, 0x244ae878)
  const G192_5 := Block(0x93faa123, 0xc2903f47, 0x43e4dd83, 0x431692de)
  const G192_6 := Block(0xcd54c728, 0x3864c0c5, 0x5d4c727e, 0x90c9a465)
  const G192_7 := Block(0x85e5c804, 0x2f861454, 0x9ebca17b, 0x277272df)
  const G192_8 := Block(0xfe7c7e71, 0xfe7f8070, 0x47b95193, 0xf67b8e4b)
  const G192_9 := Block(0x406c5010, 0x76d70066, 0xe17057ca, 0x09fc7b7f)
  const G192_10 := Block(0xd37e3705, 0x907a1a20, 0x8d1c371e, 0x8c6fbfb5)
  const G192_11 := Block(0xc494bffa, 0xe62322ab, 0x4bb5dc4e, 0x6fce69dd)
  const G192_12 := Block(0x793e7697, 0x9c3403e9, 0xaab7b2d1, 0x0fa96ccc)

  predicate Keys192(w: Bytes) {
    |w| == 208
    && KeyIs(w, 0, K192_0) && KeyIs(w, 1, K192_1) && KeyIs(w, 2, K192_2) && KeyIs(w, 3, K192_3)
    && KeyIs(w, 4, K192_4) && KeyIs(w, 5, K192_5) && KeyIs(w, 6, K192_6) && KeyIs(w, 7, K192_7)
    && KeyIs(w, 8, K192_8) && KeyIs(w, 9, K192_9) && KeyIs(w, 10, K192_10) && KeyIs(w, 11, K192_11)
    && KeyIs(w, 12, K192_12)
  }

  lemma Step192_1()
    ensures Shifted(S192_0, G192_1) && Mixed(G192_1, K192_1, S192_1)
  {
    var g := G192_1;
    ShiftedBytes(S192_0, g, Col(g.c0), Col(g.c1), Col(g.c2), Col(g.c3));
    hide Shifted;
  }

  lemma Step192_2()
    ensures Shifted(S192_1, G192_2) && Mixed(G192_2, K192_2, S192_2)
  {
    var g := G192_2;
    ShiftedBytes(S192_1, g, Col(g.c0), Col(g.c1), Col(g.c2), Col(g.c3));
    hide Shifted;
  }

  lemma Step192_3()
    ensures Shifted(S192_2, G192_3) && Mixed(G192_3, K192_3, S192_3)
  {
    var g := G192_3;
    ShiftedBytes(S192_2, g, Col(g.c0), Col(g.c1), Col(g.c2), Col(g.c3));
    hide Shifted;
  }

  lemma Step192_4()
    ensures Shifted(S192_3, G192_4) && Mixed(G192_4, K192_4, S192_4)
  {
    var g := G192_4;
    ShiftedBytes(S192_3, g, Col(g.c0), Col(g.c1), Col(g.c2), Col(g.c3));
    hide Shifted;
  }

  lemma Step192_5()
    ensures Shifted(S192_4, G192_5) && Mixed(G192_5, K192_5, S192_5)
  {
    var g := G192_5;
    ShiftedBytes(S192_4, g, Col(g.c0), Col(g.c1), Col(g.c2), Col(g.c3));
    hide Shifted;
  }

  lemma Step192_6()
    ensures Shifted(S192_5, G192_6) && Mixed(G192_6, K192_6, S192_6)
  {
    var g := G192_6;
    ShiftedBytes(S192_5, g, Col(g.c0), Col(g.c1), Col(g.c2), Col(g.c3));
    hide Shifted;
  }

  lemma Step192_7()
    ensures Shifted(S192_6, G192_7) && Mixed(G192_7, K192_7, S192_7)
  {
    var g := G192_7;
    ShiftedBytes(S192_6, g, Col(g.c0), Col(g.c1), Col(g.c2), Col(g.c3));
    hide Shifted;
  }

  lemma Step192_8()
    ensures Shifted(S192_7, G192_8) && Mixed(G192_8, K192_8, S192_8)
  {
    var g := G192_8;
    ShiftedBytes(S192_7, g, Col(g.c0), Col(g.c1), Col(g.c2), Col(g.c3));
    hide Shifted;
  }

  lemma Step192_9()
    ensures Shifted(S192_8, G192_9) && Mixed(G192_9, K192_9, S192_9)
  {
    var g := G192_9;
    ShiftedBytes(S192_8, g, Col(g.c0), Col(g.c1), Col(g.c2), Col(g.c3));
    hide Shifted;
  }

  lemma Step192_10()
    ensures Shifted(S192_9, G192_10) && Mixed(G192_10, K192_10, S192_10)
  {
    var g := G192_10;
    ShiftedBytes(S192_9, g, Col(g.c0), Col(g.c1), Col(g.c2), Col(g.c3));
    hide Shifted;
  }

  lemma Step192_11()
    ensures Shifted(S192_10, G192_11) && Mixed(G192_11, K192_11, S192_11)
  {
    var g := G192_11;
    ShiftedBytes(S192_10, g, Col(g.c0), Col(g.c1), Col(g.c2), Col(g.c3));
    hide Shifted;
  }

  lemma Ends192()
    ensures Added(PLAIN, K192_0, S192_0)
    ensures Shifted(S192_11, G192_12) && Added(G192_12, K192_12, S192_12)
  {
    var g := G192_12;
    ShiftedBytes(S192_11, g, Col(g.c0), Col(g.c1), Col(g.c2), Col(g.c3));
    hide Shifted;
  }

  lemma Rounds192(s: State, w: Bytes)
    requires Keys192(w) && Is(s, PLAIN)
    ensures Is(Forward(s, w, 11), S192_11)
  {
    hide Is, KeyIs, Forward, Shifted, Mixed, Added;
    Ends192();
    FirstKey(s, w, PLAIN, K192_0, S192_0);
    Step192_1();
    OneRound(s, w, 1, S192_0, G192_1, K192_1, S192_1);
    Step192_2();
    OneRound(s, w, 2, S192_1, G192_2, K192_2, S192_2);
    Step192_3();
    OneRound(s, w, 3, S192_2, G192_3, K192_3, S192_3);
    Step192_4();
    OneRound(s, w, 4, S192_3, G192_4, K192_4, S192_4);
    Step192_5();
    OneRound(s, w, 5, S192_4, G192_5, K192_5, S192_5);
    Step192_6();
    OneRound(s, w, 6, S192_5, G192_6, K192_6, S192_6);
    Step192_7();
    OneRound(s, w, 7, S192_6, G192_7, K192_7, S192_7);
    Step192_8();
    OneRound(s, w, 8, S192_7, G192_8, K192_8, S192_8);
    Step192_9();
    OneRound(s, w, 9, S192_8, G192_9, K192_9, S192_9);
    Step192_10();
    OneRound(s, w, 10, S192_9, G192_10, K192_10, S192_10);
    Step192_11();
    OneRound(s, w, 11, S192_10, G192_11, K192_11, S192_11);
  }

  /** The cipher on the block of appendix C.2, with every expanded key that holds the words printed there. */
  lemma Answer192(block: State, w: Bytes)
    requires Keys192(w) && BlockIs(block, PLAIN)
    ensures BlockIs(Cipher(block, w, 12), Block(0xdda97ca4, 0x864cdfe0, 0x6eaf70a0, 0xec0d7191))
  {
    hide Is, KeyIs, Forward, Load, Store, BlockIs, LastRound, Shifted, Mixed, Added;
    LoadIs(block, PLAIN);
    Rounds192(Load(block), w);
    Ends192();
    LastIs(Load(block), w, 12, S192_11, G192_12, K192_12, S192_12);
    StoreIs(LastRound(Forward(Load(block), w, 11), w, 12), S192_12);
  }

  // ---------------------------------------------------------------- 256 bits, appendix C.3

  const K256_0 := Block(0x00010203, 0x04050607, 0x08090a0b, 0x0c0d0e0f)
  const K256_1 := Block(0x10111213, 0x14151617, 0x18191a1b, 0x1c1d1e1f)
  const K256_2 := Block(0xa573c29f, 0xa176c498, 0xa97fce93, 0xa572c09c)
  const K256_3 := Block(0x1651a8cd, 0x0244beda, 0x1a5da4c1, 0x0640bade)
  const K256_4 := Block(0xae87dff0, 0x0ff11b68, 0xa68ed5fb, 0x03fc1567)
  const K256_5 := Block(0x6de1f148, 0x6fa54f92, 0x75f8eb53, 0x73b8518d)
  const K256_6 := Block(0xc656827f, 0xc9a79917, 0x6f294cec, 0x6cd5598b)
  const K256_7 := Block(0x3de23a75, 0x524775e7, 0x27bf9eb4, 0x5407cf39)
  const K256_8 := Block(0x0bdc905f, 0xc27b0948, 0xad5245a4, 0xc1871c2f)
  const K256_9 := Block(0x45f5a660, 0x17b2d387, 0x300d4d33, 0x640a820a)
  const K256_10 := Block(0x7ccff71c, 0xbeb4fe54, 0x13e6bbf0, 0xd261a7df)
  const K256_11 := Block(0xf01afafe, 0xe7a82979, 0xd7a5644a, 0xb3afe640)
  const K256_12 := Block(0x2541fe71, 0x9bf50025, 0x8813bbd5, 0x5a721c0a)
  const K256_13 := Block(0x4e5a6699, 0xa9f24fe0, 0x7e572baa, 0xcdf8cdea)
  const K256_14 := Block(0x24fc79cc, 0xbf0979e9, 0x371ac23c, 0x6d68de36)

  const S256_0 := Block(0x00102030, 0x40506070, 0x8090a0b0, 0xc0d0e0f0)
  const S256_1 := Block(0x4f637606, 0x43e0aa85, 0xefa72132, 0x01a4e705)
  const S256_2 := Block(0x1859fbc2, 0x8a1c00a0, 0x78ed8aad, 0xc42f6109)
  const S256_3 := Block(0x975c66c1, 0xcb9f3fa8, 0xa93a28df, 0x8ee10f63)
  const S256_4 := Block(0x1c05f271, 0xa417e04f, 0xf921c5c1, 0x04701554)
  const S256_5 := Block(0xc357aae1, 0x1b45b7b0, 0xa2c7bd28, 0xa8dc99fa)
  const S256_6 := Block(0x7f074143, 0xcb4e243e, 0xc10c815d, 0x8375d54c)
  const S256_7 := Block(0xd653a469, 0x6ca0bc0f, 0x5acaab5d, 0xb96c5e7d)
  const S256_8 := Block(0x5aa85839, 0x5fd28d7d, 0x05e1a388, 0x68f3b9c5)
  const S256_9 := Block(0x4a824851, 0xc57e7e47, 0x643de50c, 0x2af3e8c9)
  const S256_10 := Block(0xc14907f6, 0xca3b3aa0, 0x70e9aa31, 0x3b52b5ec)
  const S256_11 := Block(0x5f9c6abf, 0xbac634aa, 0x50409fa7, 0x66677653)
  const S256_12 := Block(0x51660495, 0x43539503, 0x14fb86e4, 0x01922521)
  const S256_13 := Block(0x627bceb9, 0x999d5aaa, 0xc945ecf4, 0x23f56da5)
  const S256_14 := Block(0x8ea2b7ca, 0x516745bf, 0xeafc4990, 0x4b496089)

  const G256_1 := Block(0x6353e08c, 0x0960e104, 0xcd70b751, 0xbacad0e7)
  const G256_2 := Block(0x84e1fd6b, 0x1a5c946f, 0xdf493897, 0x7cfbac23)
  const G256_3 := Block(0xad9c7e01, 0x7e55ef25, 0xbc150fe0, 0x1ccb6395)
  const G256_4 := Block(0x88db34fb, 0x1f807678, 0xd3f833c2, 0x194a759e)
  const G256_5 := Block(0x9cf0a620, 0x49fd59a3, 0x99518984, 0xf26be178)
  const G256_6 := Block(0x2e6e7a2d, 0xafc6eef8, 0x3a86ace7, 0xc25ba934)
  const G256_7 := Block(0xd22f0c29, 0x1ffe031a, 0x789d83b2, 0xecc5364c)
  const G256_8 := Block(0xf6e062ff, 0x507458f9, 0xbe504976, 0x56ed654c)
  const G256_9 := Block(0xbeb50aa6, 0xcff85612, 0x6b0d6aff, 0x45c25dc4)
  const G256_10 := Block(0xd6f3d9dd, 0xa6279bd1, 0x430d52a0, 0xe513f3fe)
  const G256_11 := Block(0x78e2acce, 0x741ed542, 0x5100c5e0, 0xe23b80c7)
  const G256_12 := Block(0xcfb4dbed, 0xf4093808, 0x538502ac, 0x33de185c)
  const G256_13 := Block(0xd1ed44fd, 0x1a0f3f2a, 0xfa4ff27b, 0x7c332a69)
  const G256_14 := Block(0xaa5ece06, 0xee6e3c56, 0xdde68bac, 0x2621bebf)

  predicate Keys256(w: Bytes) {
    |w| == 240
    && KeyIs(w, 0, K256_0) && KeyIs(w, 1, K256_1) && KeyIs(w, 2, K256_2) && KeyIs(w, 3, K256_3)
    && KeyIs(w, 4, K256_4) && KeyIs(w, 5, K256_5) && KeyIs(w, 6, K256_6) && KeyIs(w, 7, K256_7)
    && KeyIs(w, 8, K256_8) && KeyIs(w, 9, K256_9) && KeyIs(w, 10, K256_10) && KeyIs(w, 11, K256_11)
    && KeyIs(w, 12, K256_12) && KeyIs(w, 13, K256_13) && KeyIs(w, 14, K256_14)
  }

  lemma Step256_1()
    ensures Shifted(S256_0, G256_1) && Mixed(G256_1, K256_1, S256_1)
  {
    var g := G256_1;
    ShiftedBytes(S256_0, g, Col(g.c0), Col(g.c1), Col(g.c2), Col(g.c3));
    hide Shifted;
  }

  lemma Step256_2()
    ensures Shifted(S256_1, G256_2) && Mixed(G256_2, K256_2, S256_2)
  {
    var g := G256_2;
    ShiftedBytes(S256_1, g, Col(g.c0), Col(g.c1), Col(g.c2), Col(g.c3));
    hide Shifted;
  }

  lemma Step256_3()
    ensures Shifted(S256_2, G256_3) && Mixed(G256_3, K256_3, S256_3)
  {
    var g := G256_3;
    ShiftedBytes(S256_2, g, Col(g.c0), Col(g.c1), Col(g.c2), Col(g.c3));
    hide Shifted;
  }

  lemma Step256_4()
    ensures Shifted(S256_3, G256_4) && Mixed(G256_4, K256_4, S256_4)
  {
    var g := G256_4;
    ShiftedBytes(S256_3, g, Col(g.c0), Col(g.c1), Col(g.c2), Col(g.c3));
    hide Shifted;
  }

  lemma Step256_5()
    ensures Shifted(S256_4, G256_5) && Mixed(G256_5, K256_5, S256_5)
  {
    var g := G256_5;
    ShiftedBytes(S256_4, g, Col(g.c0), Col(g.c1), Col(g.c2), Col(g.c3));
    hide Shifted;
  }

  lemma Step256_6()
    ensures Shifted(S256_5, G256_6) && Mixed(G256_6, K256_6, S256_6)
  {
    var g := G256_6;
    ShiftedBytes(S256_5, g, Col(g.c0), Col(g.c1), Col(g.c2), Col(g.c3));
    hide Shifted;
  }

  lemma Step256_7()
    ensures Shifted(S256_6, G256_7) && Mixed(G256_7, K256_7, S256_7)
  {
    var g := G256_7;
    ShiftedBytes(S256_6, g, Col(g.c0), Col(g.c1), Col(g.c2), Col(g.c3));
    hide Shifted;
  }

  lemma Step256_8()
    ensures Shifted(S256_7, G256_8) && Mixed(G256_8, K256_8, S256_8)
  {
    var g := G256_8;
    ShiftedBytes(S256_7, g, Col(g.c0), Col(g.c1), Col(g.c2), Col(g.c3));
    hide Shifted;
  }

  lemma Step256_9()
    ensures Shifted(S256_8, G256_9) && Mixed(G256_9, K256_9, S256_9)
  {
    var g := G256_9;
    ShiftedBytes(S256_8, g, Col(g.c0), Col(g.c1), Col(g.c2), Col(g.c3));
    hide Shifted;
  }

  lemma Step256_10()
    ensures Shifted(S256_9, G256_10) && Mixed(G256_10, K256_10, S256_10)
  {
    var g := G256_10;
    ShiftedBytes(S256_9, g, Col(g.c0), Col(g.c1), Col(g.c2), Col(g.c3));
    hide Shifted;
  }

  lemma Step256_11()
    ensures Shifted(S256_10, G256_11) && Mixed(G256_11, K256_11, S256_11)
  {
    var g := G256_11;
    ShiftedBytes(S256_10, g, Col(g.c0), Col(g.c1), Col(g.c2), Col(g.c3));
    hide Shifted;
  }

  lemma Step256_12()
    ensures Shifted(S256_11, G256_12) && Mixed(G256_12, K256_12, S256_12)
  {
    var g := G256_12;
    ShiftedBytes(S256_11, g, Col(g.c0), Col(g.c1), Col(g.c2), Col(g.c3));
    hide Shifted;
  }

  lemma Step256_13()
    ensures Shifted(S256_12, G256_13) && Mixed(G256_13, K256_13, S256_13)
  {
    var g := G256_13;
    ShiftedBytes(S256_12, g, Col(g.c0), Col(g.c1), Col(g.c2), Col(g.c3));
    hide Shifted;
  }

  lemma Ends256()
    ensures Added(PLAIN, K256_0, S256_0)
    ensures Shifted(S256_13, G256_14) && Added(G256_14, K256_14, S256_14)
  {
    var g := G256_14;
    ShiftedBytes(S256_13, g, Col(g.c0), Col(g.c1), Col(g.c2), Col(g.c3));
    hide Shifted;
  }

  lemma Rounds256(s: State, w: Bytes)
    requires Keys256(w) && Is(s, PLAIN)
    ensures Is(Forward(s, w, 13), S256_13)
  {
    hide Is, KeyIs, Forward, Shifted, Mixed, Added;
    Ends256();
    FirstKey(s, w, PLAIN, K256_0, S256_0);
    Step256_1();
    OneRound(s, w, 1, S256_0, G256_1, K256_1, S256_1);
    Step256_2();
    OneRound(s, w, 2, S256_1, G256_2, K256_2, S256_2);
    Step256_3();
    OneRound(s, w, 3, S256_2, G256_3, K256_3, S256_3);
    Step256_4();
    OneRound(s, w, 4, S256_3, G256_4, K256_4, S256_4);
    Step256_5();
    OneRound(s, w, 5, S256_4, G256_5, K256_5, S256_5);
    Step256_6();
    OneRound(s, w, 6, S256_5, G256_6, K256_6, S256_6);
    Step256_7();
    OneRound(s, w, 7, S256_6, G256_7, K256_7, S256_7);
    Step256_8();
    OneRound(s, w, 8, S256_7, G256_8, K256_8, S256_8);
    Step256_9();
    OneRound(s, w, 9, S256_8, G256_9, K256_9, S256_9);
    Step256_10();
    OneRound(s, w, 10, S256_9, G256_10, K256_10, S256_10);
    Step256_11();
    OneRound(s, w, 11, S256_10, G256_11, K256_11, S256_11);
    Step256_12();
    OneRound(s, w, 12, S256_11, G256_12, K256_12, S256_12);
    Step256_13();
    OneRound(s, w, 13, S256_12, G256_13, K256_13, S256_13);
  }

  /** The cipher on the block of appendix C.3, with every expanded key that holds the words printed there. */
  lemma Answer256(block: State, w: Bytes)
    requires Keys256(w) && BlockIs(block, PLAIN)
    ensures BlockIs(Cipher(block, w, 14), Block(0x8ea2b7ca, 0x516745bf, 0xeafc4990, 0x4b496089))
  {
    hide Is, KeyIs, Forward, Load, Store, BlockIs, LastRound, Shifted, Mixed, Added;
    LoadIs(block, PLAIN);
    Rounds256(Load(block), w);
    Ends256();
    LastIs(Load(block), w, 14, S256_13, G256_14, K256_14, S256_14);
    StoreIs(LastRound(Forward(Load(block), w, 13), w, 14), S256_14);
  }
}
