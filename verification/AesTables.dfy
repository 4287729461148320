/** The tables of Include/util/aes.hpp: the S-boxes, and those rows of the multiplication table that the
    cipher reads (the coefficients of MixColumns and of its inverse). */
module AesTables {
  /** Row `row` of `s_box`, entry 0 in the most significant byte. */
  function SBoxRow(row: bv8): bv128 {
    if row == 0x0 then 0x637c777bf26b6fc53001672bfed7ab76
    else if row == 0x1 then 0xca82c97dfa5947f0add4a2af9ca472c0
    else if row == 0x2 then 0xb7fd9326363ff7cc34a5e5f171d83115
    else if row == 0x3 then 0x04c723c31896059a071280e2eb27b275
    else if row == 0x4 then 0x09832c1a1b6e5aa0523bd6b329e32f84
    else if row == 0x5 then 0x53d100ed20fcb15b6acbbe394a4c58cf
    else if row == 0x6 then 0xd0efaafb434d338545f9027f503c9fa8
    else if row == 0x7 then 0x51a3408f929d38f5bcb6da2110fff3d2
    else if row == 0x8 then 0xcd0c13ec5f974417c4a77e3d645d1973
    else if row == 0x9 then 0x60814fdc222a908846eeb814de5e0bdb
    else if row == 0xa then 0xe0323a0a4906245cc2d3ac629195e479
    else if row == 0xb then 0xe7c8376d8dd54ea96c56f4ea657aae08
    else if row == 0xc then 0xba78252e1ca6b4c6e8dd741f4bbd8b8a
    else if row == 0xd then 0x703eb5664803f60e613557b986c11d9e
    else if row == 0xe then 0xe1f8981169d98e949b1e87e9ce5528df
    else 0x8ca1890dbfe6426841992d0fb054bb16
  }

  /** Row `row` of `inv_s_box`. */
  function InvSBoxRow(row: bv8): bv128 {
    if row == 0x0 then 0x52096ad53036a538bf40a39e81f3d7fb
    else if row == 0x1 then 0x7ce339829b2fff87348e4344c4dee9cb
    else if row == 0x2 then 0x547b9432a6c2233dee4c950b42fac34e
    else if row == 0x3 then 0x082ea16628d924b2765ba2496d8bd125
    else if row == 0x4 then 0x72f8f66486689816d4a45ccc5d65b692
    else if row == 0x5 then 0x6c704850fdedb9da5e154657a78d9d84
    else if row == 0x6 then 0x90d8ab008cbcd30af7e45805b8b34506
    else if row == 0x7 then 0xd02c1e8fca3f0f02c1afbd0301138a6b
    else if row == 0x8 then 0x3a9111414f67dcea97f2cfcef0b4e673
    else if row == 0x9 then 0x96ac7422e7ad3585e2f937e81c75df6e
    else if row == 0xa then 0x47f11a711d29c5896fb7620eaa18be1b
    else if row == 0xb then 0xfc563e4bc6d279209adbc0fe78cd5af4
    else if row == 0xc then 0x1fdda8338807c731b11210592780ec5f
    else if row == 0xd then 0x60517fa919b54a0d2de57a9f93c99cef
    else if row == 0xe then 0xa0e03b4dae2af5b0c8ebbb3c83539961
    else 0x172b047eba77d626e169146355210c7d
  }

  /** Row `row` of the multiples of 01 in `gmult_aes`. */
  function Gmult01Row(row: bv8): bv128 {
    if row == 0x0 then 0x000102030405060708090a0b0c0d0e0f
    else if row == 0x1 then 0x101112131415161718191a1b1c1d1e1f
    else if row == 0x2 then 0x202122232425262728292a2b2c2d2e2f
    else if row == 0x3 then 0x303132333435363738393a3b3c3d3e3f
    else if row == 0x4 then 0x404142434445464748494a4b4c4d4e4f
    else if row == 0x5 then 0x505152535455565758595a5b5c5d5e5f
    else if row == 0x6 then 0x606162636465666768696a6b6c6d6e6f
    else if row == 0x7 then 0x707172737475767778797a7b7c7d7e7f
    else if row == 0x8 then 0x808182838485868788898a8b8c8d8e8f
    else if row == 0x9 then 0x909192939495969798999a9b9c9d9e9f
    else if row == 0xa then 0xa0a1a2a3a4a5a6a7a8a9aaabacadaeaf
    else if row == 0xb then 0xb0b1b2b3b4b5b6b7b8b9babbbcbdbebf
    else if row == 0xc then 0xc0c1c2c3c4c5c6c7c8c9cacbcccdcecf
    else if row == 0xd then 0xd0d1d2d3d4d5d6d7d8d9dadbdcdddedf
    else if row == 0xe then 0xe0e1e2e3e4e5e6e7e8e9eaebecedeeef
    else 0xf0f1f2f3f4f5f6f7f8f9fafbfcfdfeff
  }

  /** Row `row` of the multiples of 02 in `gmult_aes`. */
  function Gmult02Row(row: bv8): bv128 {
    if row == 0x0 then 0x00020406080a0c0e10121416181a1c1e
    else if row == 0x1 then 0x20222426282a2c2e30323436383a3c3e
    else if row == 0x2 then 0x40424446484a4c4e50525456585a5c5e
    else if row == 0x3 then 0x60626466686a6c6e70727476787a7c7e
    else if row == 0x4 then 0x80828486888a8c8e90929496989a9c9e
    else if row == 0x5 then 0xa0a2a4a6a8aaacaeb0b2b4b6b8babcbe
    else if row == 0x6 then 0xc0c2c4c6c8caccced0d2d4d6d8dadcde
    else if row == 0x7 then 0xe0e2e4e6e8eaeceef0f2f4f6f8fafcfe
    else if row == 0x8 then 0x1b191f1d131117150b090f0d03010705
    else if row == 0x9 then 0x3b393f3d333137352b292f2d23212725
    else if row == 0xa then 0x5b595f5d535157554b494f4d43414745
    else if row == 0xb then 0x7b797f7d737177756b696f6d63616765
    else if row == 0xc then 0x9b999f9d939197958b898f8d83818785
    else if row == 0xd then 0xbbb9bfbdb3b1b7b5aba9afada3a1a7a5
    else if row == 0xe then 0xdbd9dfddd3d1d7d5cbc9cfcdc3c1c7c5
    else 0xfbf9fffdf3f1f7f5ebe9efede3e1e7e5
  }

  /** Row `row` of the multiples of 03 in `gmult_aes`. */
  function Gmult03Row(row: bv8): bv128 {
    if row == 0x0 then 0x000306050c0f0a09181b1e1d14171211
    else if row == 0x1 then 0x303336353c3f3a39282b2e2d24272221
    else if row == 0x2 then 0x606366656c6f6a69787b7e7d74777271
    else if row == 0x3 then 0x505356555c5f5a59484b4e4d44474241
    else if row == 0x4 then 0xc0c3c6c5cccfcac9d8dbdeddd4d7d2d1
    else if row == 0x5 then 0xf0f3f6f5fcfffaf9e8ebeeede4e7e2e1
    else if row == 0x6 then 0xa0a3a6a5acafaaa9b8bbbebdb4b7b2b1
    else if row == 0x7 then 0x909396959c9f9a99888b8e8d84878281
    else if row == 0x8 then 0x9b989d9e97949192838085868f8c898a
    else if row == 0x9 then 0xaba8adaea7a4a1a2b3b0b5b6bfbcb9ba
    else if row == 0xa then 0xfbf8fdfef7f4f1f2e3e0e5e6efece9ea
    else if row == 0xb then 0xcbc8cdcec7c4c1c2d3d0d5d6dfdcd9da
    else if row == 0xc then 0x5b585d5e57545152434045464f4c494a
    else if row == 0xd then 0x6b686d6e67646162737075767f7c797a
    else if row == 0xe then 0x3b383d3e37343132232025262f2c292a
    else 0x0b080d0e07040102131015161f1c191a
  }

  /** Row `row` of the multiples of 09 in `gmult_aes`. */
  function Gmult09Row(row: bv8): bv128 {
    if row == 0x0 then 0x0009121b242d363f48415a536c657e77
    else if row == 0x1 then 0x9099828bb4bda6afd8d1cac3fcf5eee7
    else if row == 0x2 then 0x3b3229201f160d04737a6168575e454c
    else if row == 0x3 then 0xaba2b9b08f869d94e3eaf1f8c7ced5dc
    else if row == 0x4 then 0x767f646d525b40493e372c251a130801
    else if row == 0x5 then 0xe6eff4fdc2cbd0d9aea7bcb58a839891
    else if row == 0x6 then 0x4d445f5669607b72050c171e2128333a
    else if row == 0x7 then 0xddd4cfc6f9f0ebe2959c878eb1b8a3aa
    else if row == 0x8 then 0xece5fef7c8c1dad3a4adb6bf8089929b
    else if row == 0x9 then 0x7c756e6758514a43343d262f1019020b
    else if row == 0xa then 0xd7dec5ccf3fae1e89f968d84bbb2a9a0
    else if row == 0xb then 0x474e555c636a71780f061d142b223930
    else if row == 0xc then 0x9a938881beb7aca5d2dbc0c9f6ffe4ed
    else if row == 0xd then 0x0a0318112e273c35424b5059666f747d
    else if row == 0xe then 0xa1a8b3ba858c979ee9e0fbf2cdc4dfd6
    else 0x3138232a151c070e79706b625d544f46
  }

  /** Row `row` of the multiples of 0b in `gmult_aes`. */
  function Gmult0bRow(row: bv8): bv128 {
    if row == 0x0 then 0x000b161d2c273a3158534e45747f6269
    else if row == 0x1 then 0xb0bba6ad9c978a81e8e3fef5c4cfd2d9
    else if row == 0x2 then 0x7b706d66575c414a2328353e0f041912
    else if row == 0x3 then 0xcbc0ddd6e7ecf1fa9398858ebfb4a9a2
    else if row == 0x4 then 0xf6fde0ebdad1ccc7aea5b8b38289949f
    else if row == 0x5 then 0x464d505b6a617c771e1508033239242f
    else if row == 0x6 then 0x8d869b90a1aab7bcd5dec3c8f9f2efe4
    else if row == 0x7 then 0x3d362b20111a070c656e737849425f54
    else if row == 0x8 then 0xf7fce1eadbd0cdc6afa4b9b28388959e
    else if row == 0x9 then 0x474c515a6b607d761f1409023338252e
    else if row == 0xa then 0x8c879a91a0abb6bdd4dfc2c9f8f3eee5
    else if row == 0xb then 0x3c372a21101b060d646f727948435e55
    else if row == 0xc then 0x010a171c2d263b3059524f44757e6368
    else if row == 0xd then 0xb1baa7ac9d968b80e9e2fff4c5ced3d8
    else if row == 0xe then 0x7a716c67565d404b2229343f0e051813
    else 0xcac1dcd7e6edf0fb9299848fbeb5a8a3
  }

  /** Row `row` of the multiples of 0d in `gmult_aes`. */
  function Gmult0dRow(row: bv8): bv128 {
    if row == 0x0 then 0x000d1a1734392e236865727f5c51464b
    else if row == 0x1 then 0xd0ddcac7e4e9fef3b8b5a2af8c81969b
    else if row == 0x2 then 0xbbb6a1ac8f829598d3dec9c4e7eafdf0
    else if row == 0x3 then 0x6b66717c5f524548030e1914373a2d20
    else if row == 0x4 then 0x6d60777a5954434e05081f12313c2b26
    else if row == 0x5 then 0xbdb0a7aa8984939ed5d8cfc2e1ecfbf6
    else if row == 0x6 then 0xd6dbccc1e2eff8f5beb3a4a98a87909d
    else if row == 0x7 then 0x060b1c11323f28256e6374795a57404d
    else if row == 0x8 then 0xdad7c0cdeee3f4f9b2bfa8a5868b9c91
    else if row == 0x9 then 0x0a07101d3e332429626f7875565b4c41
    else if row == 0xa then 0x616c7b7655584f420904131e3d30272a
    else if row == 0xb then 0xb1bcaba685889f92d9d4c3ceede0f7fa
    else if row == 0xc then 0xb7baada0838e9994dfd2c5c8ebe6f1fc
    else if row == 0xd then 0x676a7d70535e49440f0215183b36212c
    else if row == 0xe then 0x0c01161b3835222f64697e73505d4a47
    else 0xdcd1c6cbe8e5f2ffb4b9aea3808d9a97
  }

  /** Row `row` of the multiples of 0e in `gmult_aes`. */
  function Gmult0eRow(row: bv8): bv128 {
    if row == 0x0 then 0x000e1c123836242a707e6c624846545a
    else if row == 0x1 then 0xe0eefcf2d8d6c4ca909e8c82a8a6b4ba
    else if row == 0x2 then 0xdbd5c7c9e3edfff1aba5b7b9939d8f81
    else if row == 0x3 then 0x3b352729030d1f114b455759737d6f61
    else if row == 0x4 then 0xada3b1bf959b8987ddd3c1cfe5ebf9f7
    else if row == 0x5 then 0x4d43515f757b69673d33212f050b1917
    else if row == 0x6 then 0x76786a644e40525c06081a143e30222c
    else if row == 0x7 then 0x96988a84aea0b2bce6e8faf4ded0c2cc
    else if row == 0x8 then 0x414f5d537977656b313f2d230907151b
    else if row == 0x9 then 0xa1afbdb39997858bd1dfcdc3e9e7f5fb
    else if row == 0xa then 0x9a948688a2acbeb0eae4f6f8d2dccec0
    else if row == 0xb then 0x7a746668424c5e500a041618323c2e20
    else if row == 0xc then 0xece2f0fed4dac8c69c92808ea4aab8b6
    else if row == 0xd then 0x0c02101e343a28267c72606e444a5856
    else if row == 0xe then 0x37392b250f01131d47495b557f71636d
    else 0xd7d9cbc5efe1f3fda7a9bbb59f91838d
  }

  /** Entry `x` of a 256-byte table given by its rows. */
  function Entry(row: bv128, x: bv8): bv8 {
    ((row >> (120 - 8 * ((x & 0x0f) as bv128))) & 0xff) as bv8
  }

  function SBox(x: bv8): bv8 { Entry(SBoxRow((x & 0xf0) >> 4), x) }

  function InvSBox(x: bv8): bv8 { Entry(InvSBoxRow((x & 0xf0) >> 4), x) }

  predicate Coefficient(a: bv8) {
    a == 1 || a == 2 || a == 3 || a == 9 || a == 0x0b || a == 0x0d || a == 0x0e
  }

  /** `gmult_aes[256 * a + b]` for the coefficients in use. */
  function Gmult(a: bv8, b: bv8): bv8
    requires Coefficient(a)
  {
    var r := (b & 0xf0) >> 4;
    Entry(if a == 1 then Gmult01Row(r)
          else if a == 2 then Gmult02Row(r)
          else if a == 3 then Gmult03Row(r)
          else if a == 9 then Gmult09Row(r)
          else if a == 0x0b then Gmult0bRow(r)
          else if a == 0x0d then Gmult0dRow(r)
          else Gmult0eRow(r), b)
  }

  /** Multiplication by x in GF(2^8) modulo x^8 + x^4 + x^3 + x + 1. */
  function Xtime(b: bv8): bv8 {
    (b << 1) ^ ((b >> 7) * 0x1b)
  }

  function X4(b: bv8): bv8 { Xtime(Xtime(b)) }

  function X8(b: bv8): bv8 { Xtime(X4(b)) }

  // The products in GF(2^8) with the coefficients, each a polynomial of degree at most 3.
  function Times2(b: bv8): bv8 { Xtime(b) }
  function Times3(b: bv8): bv8 { Xtime(b) ^ b }
  function Times9(b: bv8): bv8 { X8(b) ^ b }
  function TimesB(b: bv8): bv8 { X8(b) ^ Xtime(b) ^ b }
  function TimesD(b: bv8): bv8 { X8(b) ^ X4(b) ^ b }
  function TimesE(b: bv8): bv8 { X8(b) ^ X4(b) ^ Xtime(b) }

  function Product(a: bv8, b: bv8): bv8
    requires Coefficient(a)
  {
    if a == 1 then b
    else if a == 2 then Times2(b)
    else if a == 3 then Times3(b)
    else if a == 9 then Times9(b)
    else if a == 0x0b then TimesB(b)
    else if a == 0x0d then TimesD(b)
    else TimesE(b)
  }

  lemma InvSBoxUndoesSBox(x: bv8)
    ensures InvSBox(SBox(x)) == x
  {
    if x < 0x80 {
      InvSBoxLow(x);
    } else {
      InvSBoxHigh(x);
    }
  }

  lemma InvSBoxLow(x: bv8)
    requires x < 0x80
    ensures InvSBox(SBox(x)) == x
  {
  }

  lemma InvSBoxHigh(x: bv8)
    requires x >= 0x80
    ensures InvSBox(SBox(x)) == x
  {
  }

  lemma Row01(b: bv8)
    ensures Entry(Gmult01Row((b & 0xf0) >> 4), b) == b
  {
  }

  lemma Row02(b: bv8)
    ensures Entry(Gmult02Row((b & 0xf0) >> 4), b) == Times2(b)
  {
  }

  lemma Row03(b: bv8)
    ensures Entry(Gmult03Row((b & 0xf0) >> 4), b) == Times3(b)
  {
  }

  lemma Row09(b: bv8)
    ensures Entry(Gmult09Row((b & 0xf0) >> 4), b) == Times9(b)
  {
  }

  lemma Row0b(b: bv8)
    ensures Entry(Gmult0bRow((b & 0xf0) >> 4), b) == TimesB(b)
  {
    hide Entry, Gmult0bRow, TimesB;
    if b < 0x80 { Row0bLow(b); } else { Row0bHigh(b); }
  }

  lemma Row0bLow(b: bv8)
    requires b < 0x80
    ensures Entry(Gmult0bRow((b & 0xf0) >> 4), b) == TimesB(b)
  {
  }

  lemma Row0bHigh(b: bv8)
    requires b >= 0x80
    ensures Entry(Gmult0bRow((b & 0xf0) >> 4), b) == TimesB(b)
  {
  }

  lemma Row0d(b: bv8)
    ensures Entry(Gmult0dRow((b & 0xf0) >> 4), b) == TimesD(b)
  {
    hide Entry, Gmult0dRow, TimesD;
    if b < 0x80 { Row0dLow(b); } else { Row0dHigh(b); }
  }

  lemma Row0dLow(b: bv8)
    requires b < 0x80
    ensures Entry(Gmult0dRow((b & 0xf0) >> 4), b) == TimesD(b)
  {
  }

  lemma Row0dHigh(b: bv8)
    requires b >= 0x80
    ensures Entry(Gmult0dRow((b & 0xf0) >> 4), b) == TimesD(b)
  {
  }

  lemma Row0e(b: bv8)
    ensures Entry(Gmult0eRow((b & 0xf0) >> 4), b) == TimesE(b)
  {
    hide Entry, Gmult0eRow, TimesE;
    if b < 0x80 { Row0eLow(b); } else { Row0eHigh(b); }
  }

  lemma Row0eLow(b: bv8)
    requires b < 0x80
    ensures Entry(Gmult0eRow((b & 0xf0) >> 4), b) == TimesE(b)
  {
  }

  lemma Row0eHigh(b: bv8)
    requires b >= 0x80
    ensures Entry(Gmult0eRow((b & 0xf0) >> 4), b) == TimesE(b)
  {
  }

  /** The seven table rows hold products in GF(2^8). */
  lemma GmultIsProduct(a: bv8, b: bv8)
    requires Coefficient(a)
    ensures Gmult(a, b) == Product(a, b)
  {
    Row01(b);
    Row02(b);
    Row03(b);
    Row09(b);
    Row0b(b);
    Row0d(b);
    Row0e(b);
    hide Entry, Times2, Times3, Times9, TimesB, TimesD, TimesE;
    hide Gmult01Row, Gmult02Row, Gmult03Row, Gmult09Row, Gmult0bRow, Gmult0dRow, Gmult0eRow;
  }

  // Multiplication distributes over addition, which is exclusive or.

  lemma XtimeIsLinear(x: bv8, y: bv8)
    ensures Xtime(x ^ y) == Xtime(x) ^ Xtime(y)
  {
  }

  lemma X4IsLinear(x: bv8, y: bv8)
    ensures X4(x ^ y) == X4(x) ^ X4(y)
  {
    XtimeIsLinear(x, y);
    XtimeIsLinear(Xtime(x), Xtime(y));
    hide Xtime;
  }

  lemma X8IsLinear(x: bv8, y: bv8)
    ensures X8(x ^ y) == X8(x) ^ X8(y)
  {
    X4IsLinear(x, y);
    XtimeIsLinear(X4(x), X4(y));
    hide X4, Xtime;
  }

  lemma Times3IsLinear(x: bv8, y: bv8)
    ensures Times3(x ^ y) == Times3(x) ^ Times3(y)
  {
    XtimeIsLinear(x, y);
    X4IsLinear(x, y);
    X8IsLinear(x, y);
    hide Xtime, X4, X8;
  }

  lemma Times9IsLinear(x: bv8, y: bv8)
    ensures Times9(x ^ y) == Times9(x) ^ Times9(y)
  {
    XtimeIsLinear(x, y);
    X4IsLinear(x, y);
    X8IsLinear(x, y);
    hide Xtime, X4, X8;
  }

  lemma TimesBIsLinear(x: bv8, y: bv8)
    ensures TimesB(x ^ y) == TimesB(x) ^ TimesB(y)
  {
    XtimeIsLinear(x, y);
    X4IsLinear(x, y);
    X8IsLinear(x, y);
    hide Xtime, X4, X8;
  }

  lemma TimesDIsLinear(x: bv8, y: bv8)
    ensures TimesD(x ^ y) == TimesD(x) ^ TimesD(y)
  {
    XtimeIsLinear(x, y);
    X4IsLinear(x, y);
    X8IsLinear(x, y);
    hide Xtime, X4, X8;
  }

  lemma TimesEIsLinear(x: bv8, y: bv8)
    ensures TimesE(x ^ y) == TimesE(x) ^ TimesE(y)
  {
    XtimeIsLinear(x, y);
    X4IsLinear(x, y);
    X8IsLinear(x, y);
    hide Xtime, X4, X8;
  }

  lemma ProductIsLinear(a: bv8, x: bv8, y: bv8)
    requires Coefficient(a)
    ensures Product(a, x ^ y) == Product(a, x) ^ Product(a, y)
  {
    XtimeIsLinear(x, y);
    Times3IsLinear(x, y);
    Times9IsLinear(x, y);
    TimesBIsLinear(x, y);
    TimesDIsLinear(x, y);
    TimesEIsLinear(x, y);
    hide Xtime, Times3, Times9, TimesB, TimesD, TimesE;
  }
}
