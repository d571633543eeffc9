/** A digest of the test suite in section A.5 of RFC 1321: it anchors the functions, tables,
    rotations and byte orders of the reference. */
module Md5Suite {
  import opened Md5
  import opened Md5Stream

  /** The first block, word by word: ABC...XYZabc...xyz0123456789 and the first padding bytes. */
  function Letters(k: nat): (w: seq<Byte>)
    ensures |w| == 4
  {
    match k
    case 0 => [0x41, 0x42, 0x43, 0x44]
    case 1 => [0x45, 0x46, 0x47, 0x48]
    case 2 => [0x49, 0x4a, 0x4b, 0x4c]
    case 3 => [0x4d, 0x4e, 0x4f, 0x50]
    case 4 => [0x51, 0x52, 0x53, 0x54]
    case 5 => [0x55, 0x56, 0x57, 0x58]
    case 6 => [0x59, 0x5a, 0x61, 0x62]
    case 7 => [0x63, 0x64, 0x65, 0x66]
    case 8 => [0x67, 0x68, 0x69, 0x6a]
    case 9 => [0x6b, 0x6c, 0x6d, 0x6e]
    case 10 => [0x6f, 0x70, 0x71, 0x72]
    case 11 => [0x73, 0x74, 0x75, 0x76]
    case 12 => [0x77, 0x78, 0x79, 0x7a]
    case 13 => [0x30, 0x31, 0x32, 0x33]
    case 14 => [0x34, 0x35, 0x36, 0x37]
    case _ => [0x38, 0x39, 0x80, 0x00]
  }

  /** The letters and digits. */
  function Message(): (m: seq<Byte>)
    ensures |m| == 62
  {
    seq(62, i requires 0 <= i < 62 => Letters(i / 4)[i % 4])
  }

  /** The next operation computes v. */
  lemma Op(i: nat, r: Digest, start: Digest, block: seq<Byte>, v: bv32) returns (o: Digest)
    requires |block| == 64 && i < 64 && r == Operations(i, start, block) && v == Value(i, r.a, r.b, r.c, r.d, block)
    ensures o == Digest(r.d, v, r.b, r.c) && o == Operations(i + 1, start, block)
  {
    hide Value;
    o := Digest(r.d, v, r.b, r.c);
  }

  /** The words of the first block. */
  predicate FirstBlock(b: seq<Byte>) {
    |b| == 64
    && Word(b, 0) == 0x4443_4241 && Word(b, 1) == 0x4847_4645 && Word(b, 2) == 0x4c4b_4a49 && Word(b, 3) == 0x504f_4e4d
    && Word(b, 4) == 0x5453_5251 && Word(b, 5) == 0x5857_5655 && Word(b, 6) == 0x6261_5a59 && Word(b, 7) == 0x6665_6463
    && Word(b, 8) == 0x6a69_6867 && Word(b, 9) == 0x6e6d_6c6b && Word(b, 10) == 0x7271_706f
    && Word(b, 11) == 0x7675_7473
    && Word(b, 12) == 0x7a79_7877 && Word(b, 13) == 0x3332_3130 && Word(b, 14) == 0x3736_3534
    && Word(b, 15) == 0x0080_3938
  }

  lemma First0(start: Digest, b: seq<Byte>)
    requires FirstBlock(b) && Operations(0, start, b) == Digest(0x6745_2301, 0xefcd_ab89, 0x98ba_dcfe, 0x1032_5476)
    ensures Operations(8, start, b) == Digest(0xf22e_6c4e, 0xa479_9506, 0xa95a_2fc0, 0xb4ac_9218)
  {
    hide Operations, Operation, Word, Index, Shift, Table;
    Rows1a();
    Rows1b();
    var r := Digest(0x6745_2301, 0xefcd_ab89, 0x98ba_dcfe, 0x1032_5476);
    r := Op(0, r, start, b, 0xc6c1_0796);
    r := Op(1, r, start, b, 0x99a0_9999);
    r := Op(2, r, start, b, 0x1106_7980);
    r := Op(3, r, start, b, 0x27bc_e07a);
    r := Op(4, r, start, b, 0xf22e_6c4e);
    r := Op(5, r, start, b, 0xb4ac_9218);
    r := Op(6, r, start, b, 0xa95a_2fc0);
    r := Op(7, r, start, b, 0xa479_9506);
  }

  lemma First1(start: Digest, b: seq<Byte>)
    requires FirstBlock(b) && Operations(8, start, b) == Digest(0xf22e_6c4e, 0xa479_9506, 0xa95a_2fc0, 0xb4ac_9218)
    ensures Operations(16, start, b) == Digest(0x3cbd_cd45, 0x5d38_e690, 0xfa14_8c8a, 0xb8de_c763)
  {
    hide Operations, Operation, Word, Index, Shift, Table;
    Rows1c();
    Rows1d();
    var r := Digest(0xf22e_6c4e, 0xa479_9506, 0xa95a_2fc0, 0xb4ac_9218);
    r := Op(8, r, start, b, 0x1eb3_e7c1);
    r := Op(9, r, start, b, 0xa6e7_0cfe);
    r := Op(10, r, start, b, 0xca27_520b);
    r := Op(11, r, start, b, 0x8a76_12ec);
    r := Op(12, r, start, b, 0x3cbd_cd45);
    r := Op(13, r, start, b, 0xb8de_c763);
    r := Op(14, r, start, b, 0xfa14_8c8a);
    r := Op(15, r, start, b, 0x5d38_e690);
  }

  lemma First2(start: Digest, b: seq<Byte>)
    requires FirstBlock(b) && Operations(16, start, b) == Digest(0x3cbd_cd45, 0x5d38_e690, 0xfa14_8c8a, 0xb8de_c763)
    ensures Operations(24, start, b) == Digest(0x2d7d_8a3f, 0x7529_2030, 0x4b53_4dc3, 0xd121_0823)
  {
    hide Operations, Operation, Word, Index, Shift, Table;
    Rows2a();
    Rows2b();
    var r := Digest(0x3cbd_cd45, 0x5d38_e690, 0xfa14_8c8a, 0xb8de_c763);
    r := Op(16, r, start, b, 0x04b9_d52a);
    r := Op(17, r, start, b, 0x7830_02eb);
    r := Op(18, r, start, b, 0xd3ee_3ed1);
    r := Op(19, r, start, b, 0x47ae_7c81);
    r := Op(20, r, start, b, 0x2d7d_8a3f);
    r := Op(21, r, start, b, 0xd121_0823);
    r := Op(22, r, start, b, 0x4b53_4dc3);
    r := Op(23, r, start, b, 0x7529_2030);
  }

  lemma First3(start: Digest, b: seq<Byte>)
    requires FirstBlock(b) && Operations(24, start, b) == Digest(0x2d7d_8a3f, 0x7529_2030, 0x4b53_4dc3, 0xd121_0823)
    ensures Operations(32, start, b) == Digest(0x9b08_5fa9, 0xdd78_9ecc, 0x5993_248f, 0x4400_a9bd)
  {
    hide Operations, Operation, Word, Index, Shift, Table;
    Rows2c();
    Rows2d();
    var r := Digest(0x2d7d_8a3f, 0x7529_2030, 0x4b53_4dc3, 0xd121_0823);
    r := Op(24, r, start, b, 0x9d2a_6e33);
    r := Op(25, r, start, b, 0x0e8d_2e44);
    r := Op(26, r, start, b, 0xd473_b564);
    r := Op(27, r, start, b, 0xf2ff_6ea0);
    r := Op(28, r, start, b, 0x9b08_5fa9);
    r := Op(29, r, start, b, 0x4400_a9bd);
    r := Op(30, r, start, b, 0x5993_248f);
    r := Op(31, r, start, b, 0xdd78_9ecc);
  }

  lemma First4(start: Digest, b: seq<Byte>)
    requires FirstBlock(b) && Operations(32, start, b) == Digest(0x9b08_5fa9, 0xdd78_9ecc, 0x5993_248f, 0x4400_a9bd)
    ensures Operations(40, start, b) == Digest(0x436b_7fe9, 0xcf03_41ed, 0xf404_c2f6, 0x0758_00c1)
  {
    hide Operations, Operation, Word, Index, Shift, Table;
    Rows3a();
    Rows3b();
    var r := Digest(0x9b08_5fa9, 0xdd78_9ecc, 0x5993_248f, 0x4400_a9bd);
    r := Op(32, r, start, b, 0x21c8_d2b7);
    r := Op(33, r, start, b, 0x1d55_a18e);
    r := Op(34, r, start, b, 0x056e_c119);
    r := Op(35, r, start, b, 0x1b95_04f8);
    r := Op(36, r, start, b, 0x436b_7fe9);
    r := Op(37, r, start, b, 0x0758_00c1);
    r := Op(38, r, start, b, 0xf404_c2f6);
    r := Op(39, r, start, b, 0xcf03_41ed);
  }

  lemma First5(start: Digest, b: seq<Byte>)
    requires FirstBlock(b) && Operations(40, start, b) == Digest(0x436b_7fe9, 0xcf03_41ed, 0xf404_c2f6, 0x0758_00c1)
    ensures Operations(48, start, b) == Digest(0x2dbe_e21d, 0xf166_f514, 0xee46_e961, 0xe95c_3a43)
  {
    hide Operations, Operation, Word, Index, Shift, Table;
    Rows3c();
    Rows3d();
    var r := Digest(0x436b_7fe9, 0xcf03_41ed, 0xf404_c2f6, 0x0758_00c1);
    r := Op(40, r, start, b, 0x888e_7d8a);
    r := Op(41, r, start, b, 0xbbda_ecd8);
    r := Op(42, r, start, b, 0xce62_0273);
    r := Op(43, r, start, b, 0x047b_9419);
    r := Op(44, r, start, b, 0x2dbe_e21d);
    r := Op(45, r, start, b, 0xe95c_3a43);
    r := Op(46, r, start, b, 0xee46_e961);
    r := Op(47, r, start, b, 0xf166_f514);
  }

  lemma First6(start: Digest, b: seq<Byte>)
    requires FirstBlock(b) && Operations(48, start, b) == Digest(0x2dbe_e21d, 0xf166_f514, 0xee46_e961, 0xe95c_3a43)
    ensures Operations(56, start, b) == Digest(0xa691_d430, 0xefb0_e72f, 0x3fc2_3df6, 0x5284_52f2)
  {
    hide Operations, Operation, Word, Index, Shift, Table;
    Rows4a();
    Rows4b();
    var r := Digest(0x2dbe_e21d, 0xf166_f514, 0xee46_e961, 0xe95c_3a43);
    r := Op(48, r, start, b, 0xe47f_d4f3);
    r := Op(49, r, start, b, 0xfb88_7751);
    r := Op(50, r, start, b, 0xf22a_edcc);
    r := Op(51, r, start, b, 0x7a13_bc5c);
    r := Op(52, r, start, b, 0xa691_d430);
    r := Op(53, r, start, b, 0x5284_52f2);
    r := Op(54, r, start, b, 0x3fc2_3df6);
    r := Op(55, r, start, b, 0xefb0_e72f);
  }

  lemma First7(start: Digest, b: seq<Byte>)
    requires FirstBlock(b) && Operations(56, start, b) == Digest(0xa691_d430, 0xefb0_e72f, 0x3fc2_3df6, 0x5284_52f2)
    ensures Operations(64, start, b) == Digest(0x1cb8_0f0a, 0xef2e_3a46, 0x10f6_8731, 0xea3d_3eb4)
  {
    hide Operations, Operation, Word, Index, Shift, Table;
    Rows4c();
    Rows4d();
    Rows4e();
    var r := Digest(0xa691_d430, 0xefb0_e72f, 0x3fc2_3df6, 0x5284_52f2);
    r := Op(56, r, start, b, 0x2714_5703);
    r := Op(57, r, start, b, 0x21a1_1069);
    r := Op(58, r, start, b, 0x374f_be79);
    r := Op(59, r, start, b, 0x49d9_a5b4);
    r := Op(60, r, start, b, 0x1cb8_0f0a);
    r := Op(61, r, start, b, 0xea3d_3eb4);
    r := Op(62, r, start, b, 0x10f6_8731);
    r := Op(63, r, start, b, 0xef2e_3a46);
  }

  lemma FirstProcessed(b: seq<Byte>)
    requires |b| == 64 && FirstBlock(b)
    ensures Process(INIT, b) == Digest(0x83fd_320b, 0xdefb_e5cf, 0xa9b1_642f, 0xfa6f_932a)
  {
    hide Operations, FirstBlock;
    var start := Digest(0x6745_2301, 0xefcd_ab89, 0x98ba_dcfe, 0x1032_5476);
    Start(start, b);
    First0(start, b);
    First1(start, b);
    First2(start, b);
    First3(start, b);
    First4(start, b);
    First5(start, b);
    First6(start, b);
    First7(start, b);
  }

  /** The words of the second block. */
  predicate SecondBlock(b: seq<Byte>) {
    |b| == 64
    && Word(b, 0) == 0x0000_0000 && Word(b, 1) == 0x0000_0000 && Word(b, 2) == 0x0000_0000 && Word(b, 3) == 0x0000_0000
    && Word(b, 4) == 0x0000_0000 && Word(b, 5) == 0x0000_0000 && Word(b, 6) == 0x0000_0000 && Word(b, 7) == 0x0000_0000
    && Word(b, 8) == 0x0000_0000 && Word(b, 9) == 0x0000_0000 && Word(b, 10) == 0x0000_0000
    && Word(b, 11) == 0x0000_0000
    && Word(b, 12) == 0x0000_0000 && Word(b, 13) == 0x0000_0000 && Word(b, 14) == 0x0000_01f0
    && Word(b, 15) == 0x0000_0000
  }

  lemma Second0(start: Digest, b: seq<Byte>)
    requires SecondBlock(b) && Operations(0, start, b) == Digest(0x83fd_320b, 0xdefb_e5cf, 0xa9b1_642f, 0xfa6f_932a)
    ensures Operations(8, start, b) == Digest(0x7514_4433, 0x99b6_b699, 0xc783_cb60, 0xc887_5807)
  {
    hide Operations, Operation, Word, Index, Shift, Table;
    Rows1a();
    Rows1b();
    var r := Digest(0x83fd_320b, 0xdefb_e5cf, 0xa9b1_642f, 0xfa6f_932a);
    r := Op(0, r, start, b, 0xeda2_3ed1);
    r := Op(1, r, start, b, 0x9899_39cf);
    r := Op(2, r, start, b, 0x3c30_7338);
    r := Op(3, r, start, b, 0xddcf_0634);
    r := Op(4, r, start, b, 0x7514_4433);
    r := Op(5, r, start, b, 0xc887_5807);
    r := Op(6, r, start, b, 0xc783_cb60);
    r := Op(7, r, start, b, 0x99b6_b699);
  }

  lemma Second1(start: Digest, b: seq<Byte>)
    requires SecondBlock(b) && Operations(8, start, b) == Digest(0x7514_4433, 0x99b6_b699, 0xc783_cb60, 0xc887_5807)
    ensures Operations(16, start, b) == Digest(0xa707_37da, 0xa36f_556f, 0x96f6_586e, 0x5473_f8a7)
  {
    hide Operations, Operation, Word, Index, Shift, Table;
    Rows1c();
    Rows1d();
    var r := Digest(0x7514_4433, 0x99b6_b699, 0xc783_cb60, 0xc887_5807);
    r := Op(8, r, start, b, 0xa60a_3f69);
    r := Op(9, r, start, b, 0xaa66_30be);
    r := Op(10, r, start, b, 0x64db_26e9);
    r := Op(11, r, start, b, 0x64cc_7c5a);
    r := Op(12, r, start, b, 0xa707_37da);
    r := Op(13, r, start, b, 0x5473_f8a7);
    r := Op(14, r, start, b, 0x96f6_586e);
    r := Op(15, r, start, b, 0xa36f_556f);
  }

  lemma Second2(start: Digest, b: seq<Byte>)
    requires SecondBlock(b) && Operations(16, start, b) == Digest(0xa707_37da, 0xa36f_556f, 0x96f6_586e, 0x5473_f8a7)
    ensures Operations(24, start, b) == Digest(0xe04f_070c, 0xdf35_cb56, 0xc0d2_2b61, 0x2f3c_d2a2)
  {
    hide Operations, Operation, Word, Index, Shift, Table;
    Rows2a();
    Rows2b();
    var r := Digest(0xa707_37da, 0xa36f_556f, 0x96f6_586e, 0x5473_f8a7);
    r := Op(16, r, start, b, 0xa505_0ad3);
    r := Op(17, r, start, b, 0x2877_6046);
    r := Op(18, r, start, b, 0x27dc_d8b4);
    r := Op(19, r, start, b, 0x82b8_827c);
    r := Op(20, r, start, b, 0xe04f_070c);
    r := Op(21, r, start, b, 0x2f3c_d2a2);
    r := Op(22, r, start, b, 0xc0d2_2b61);
    r := Op(23, r, start, b, 0xdf35_cb56);
  }

  lemma Second3(start: Digest, b: seq<Byte>)
    requires SecondBlock(b) && Operations(24, start, b) == Digest(0xe04f_070c, 0xdf35_cb56, 0xc0d2_2b61, 0x2f3c_d2a2)
    ensures Operations(32, start, b) == Digest(0x24eb_a695, 0x9c03_e2e8, 0x10c4_2a2f, 0x4bd0_378b)
  {
    hide Operations, Operation, Word, Index, Shift, Table;
    Rows2c();
    Rows2d();
    var r := Digest(0xe04f_070c, 0xdf35_cb56, 0xc0d2_2b61, 0x2f3c_d2a2);
    r := Op(24, r, start, b, 0x242d_d210);
    r := Op(25, r, start, b, 0x576a_ce33);
    r := Op(26, r, start, b, 0x5c29_5967);
    r := Op(27, r, start, b, 0x2291_191a);
    r := Op(28, r, start, b, 0x24eb_a695);
    r := Op(29, r, start, b, 0x4bd0_378b);
    r := Op(30, r, start, b, 0x10c4_2a2f);
    r := Op(31, r, start, b, 0x9c03_e2e8);
  }

  lemma Second4(start: Digest, b: seq<Byte>)
    requires SecondBlock(b) && Operations(32, start, b) == Digest(0x24eb_a695, 0x9c03_e2e8, 0x10c4_2a2f, 0x4bd0_378b)
    ensures Operations(40, start, b) == Digest(0xe14e_403d, 0xfe31_4121, 0x60cc_183a, 0xe8cf_d670)
  {
    hide Operations, Operation, Word, Index, Shift, Table;
    Rows3a();
    Rows3b();
    var r := Digest(0x24eb_a695, 0x9c03_e2e8, 0x10c4_2a2f, 0x4bd0_378b);
    r := Op(32, r, start, b, 0x5be1_d526);
    r := Op(33, r, start, b, 0x9e41_4279);
    r := Op(34, r, start, b, 0x9f4a_1a7e);
    r := Op(35, r, start, b, 0xa244_8453);
    r := Op(36, r, start, b, 0xe14e_403d);
    r := Op(37, r, start, b, 0xe8cf_d670);
    r := Op(38, r, start, b, 0x60cc_183a);
    r := Op(39, r, start, b, 0xfe31_4121);
  }

  lemma Second5(start: Digest, b: seq<Byte>)
    requires SecondBlock(b) && Operations(40, start, b) == Digest(0xe14e_403d, 0xfe31_4121, 0x60cc_183a, 0xe8cf_d670)
    ensures Operations(48, start, b) == Digest(0x54c9_eb3a, 0x79c0_710a, 0x2ec8_6f72, 0xd4d9_c6ac)
  {
    hide Operations, Operation, Word, Index, Shift, Table;
    Rows3c();
    Rows3d();
    var r := Digest(0xe14e_403d, 0xfe31_4121, 0x60cc_183a, 0xe8cf_d670);
    r := Op(40, r, start, b, 0xfff6_2809);
    r := Op(41, r, start, b, 0xe372_09ac);
    r := Op(42, r, start, b, 0x8cb5_221c);
    r := Op(43, r, start, b, 0x7c7e_974c);
    r := Op(44, r, start, b, 0x54c9_eb3a);
    r := Op(45, r, start, b, 0xd4d9_c6ac);
    r := Op(46, r, start, b, 0x2ec8_6f72);
    r := Op(47, r, start, b, 0x79c0_710a);
  }

  lemma Second6(start: Digest, b: seq<Byte>)
    requires SecondBlock(b) && Operations(48, start, b) == Digest(0x54c9_eb3a, 0x79c0_710a, 0x2ec8_6f72, 0xd4d9_c6ac)
    ensures Operations(56, start, b) == Digest(0xe126_c1aa, 0xfb7b_cee0, 0x6f28_7ff5, 0x96b0_0fa7)
  {
    hide Operations, Operation, Word, Index, Shift, Table;
    Rows4a();
    Rows4b();
    var r := Digest(0x54c9_eb3a, 0x79c0_710a, 0x2ec8_6f72, 0xd4d9_c6ac);
    r := Op(48, r, start, b, 0x0209_5af1);
    r := Op(49, r, start, b, 0x13d2_45fd);
    r := Op(50, r, start, b, 0xa8dc_fe26);
    r := Op(51, r, start, b, 0x2ba9_8e3f);
    r := Op(52, r, start, b, 0xe126_c1aa);
    r := Op(53, r, start, b, 0x96b0_0fa7);
    r := Op(54, r, start, b, 0x6f28_7ff5);
    r := Op(55, r, start, b, 0xfb7b_cee0);
  }

  lemma Second7(start: Digest, b: seq<Byte>)
    requires SecondBlock(b) && Operations(56, start, b) == Digest(0xe126_c1aa, 0xfb7b_cee0, 0x6f28_7ff5, 0x96b0_0fa7)
    ensures Operations(64, start, b) == Digest(0x14ae_42c6, 0x16dd_9203, 0x826a_fd76, 0xa52d_ae75)
  {
    hide Operations, Operation, Word, Index, Shift, Table;
    Rows4c();
    Rows4d();
    Rows4e();
    var r := Digest(0xe126_c1aa, 0xfb7b_cee0, 0x6f28_7ff5, 0x96b0_0fa7);
    r := Op(56, r, start, b, 0x452c_1099);
    r := Op(57, r, start, b, 0xca80_1ba6);
    r := Op(58, r, start, b, 0xc197_ea8e);
    r := Op(59, r, start, b, 0x5ac7_4608);
    r := Op(60, r, start, b, 0x14ae_42c6);
    r := Op(61, r, start, b, 0xa52d_ae75);
    r := Op(62, r, start, b, 0x826a_fd76);
    r := Op(63, r, start, b, 0x16dd_9203);
  }

  lemma SecondProcessed(b: seq<Byte>)
    requires |b| == 64 && SecondBlock(b)
    ensures Process(Digest(0x83fd_320b, 0xdefb_e5cf, 0xa9b1_642f, 0xfa6f_932a), b) ==
            Digest(0x98ab_74d1, 0xf5d9_77d2, 0x2c1c_61a5, 0x9f9d_419f)
  {
    hide Operations, SecondBlock;
    var start := Digest(0x83fd_320b, 0xdefb_e5cf, 0xa9b1_642f, 0xfa6f_932a);
    Start(start, b);
    Second0(start, b);
    Second1(start, b);
    Second2(start, b);
    Second3(start, b);
    Second4(start, b);
    Second5(start, b);
    Second6(start, b);
    Second7(start, b);
  }

  lemma Start(start: Digest, b: seq<Byte>)
    requires |b| == 64
    ensures Operations(0, start, b) == start
  {
  }

  /** The padded message. */
  lemma PaddedIs(m: seq<Byte>, p: seq<Byte>)
    requires |m| == 62 && p == Padded(m)
    ensures |p| == 128 && p[..62] == m && p[62] == 0x80 && (forall i :: 63 <= i < 120 ==> p[i] == 0)
    ensures p[120] == 0xf0 && p[121] == 0x01 && forall i :: 122 <= i < 128 ==> p[i] == 0
  {
    var tail := LengthBytes(496);
    hide *;
    PaddingIs();
    LengthIs();
    PaddedParts(m);
    Joined(m, Padding(58), tail, p);
  }

  lemma PaddedParts(m: seq<Byte>)
    requires |m| == 62
    ensures Padded(m) == m + Padding(58) + LengthBytes(496)
  {
    hide Padding, LengthBytes;
  }

  lemma Joined(m: seq<Byte>, pad: seq<Byte>, tail: seq<Byte>, p: seq<Byte>)
    requires |m| == 62 && |pad| == 58 && |tail| == 8 && p == m + pad + tail
    ensures |p| == 128 && p[..62] == m
    ensures forall i :: 62 <= i < 120 ==> p[i] == pad[i - 62]
    ensures forall i :: 120 <= i < 128 ==> p[i] == tail[i - 120]
  {
  }

  lemma PaddingIs()
    ensures Padding(58)[0] == 0x80 && forall i :: 1 <= i < 58 ==> Padding(58)[i] == 0
  {
  }

  lemma LengthIs()
    ensures LengthBytes(496) == [0xf0, 0x01, 0, 0, 0, 0, 0, 0]
  {
  }

  lemma MessageFirst(b: seq<Byte>)
    requires |b| == 64 && b[..62] == Message() && b[62] == 0x80 && b[63] == 0
    ensures forall i :: 0 <= i < 64 ==> b[i] == Letters(i / 4)[i % 4]
  {
    forall i | 0 <= i < 62 ensures b[i] == Letters(i / 4)[i % 4] {
      assert b[i] == b[..62][i] == Message()[i];
    }
  }

  lemma FirstHalf(b: seq<Byte>)
    requires |b| == 64 && forall i :: 0 <= i < 64 ==> b[i] == Letters(i / 4)[i % 4]
    ensures Word(b, 0) == 0x4443_4241 && Word(b, 1) == 0x4847_4645 && Word(b, 2) == 0x4c4b_4a49
    ensures Word(b, 3) == 0x504f_4e4d
    ensures Word(b, 4) == 0x5453_5251 && Word(b, 5) == 0x5857_5655 && Word(b, 6) == 0x6261_5a59
    ensures Word(b, 7) == 0x6665_6463
  {
    hide Word;
    WordOf(b, 0, 0x41, 0x42, 0x43, 0x44);
    WordOf(b, 1, 0x45, 0x46, 0x47, 0x48);
    WordOf(b, 2, 0x49, 0x4a, 0x4b, 0x4c);
    WordOf(b, 3, 0x4d, 0x4e, 0x4f, 0x50);
    WordOf(b, 4, 0x51, 0x52, 0x53, 0x54);
    WordOf(b, 5, 0x55, 0x56, 0x57, 0x58);
    WordOf(b, 6, 0x59, 0x5a, 0x61, 0x62);
    WordOf(b, 7, 0x63, 0x64, 0x65, 0x66);
  }

  lemma SecondHalf(b: seq<Byte>)
    requires |b| == 64 && forall i :: 0 <= i < 64 ==> b[i] == Letters(i / 4)[i % 4]
    ensures Word(b, 8) == 0x6a69_6867 && Word(b, 9) == 0x6e6d_6c6b && Word(b, 10) == 0x7271_706f
    ensures Word(b, 11) == 0x7675_7473
    ensures Word(b, 12) == 0x7a79_7877 && Word(b, 13) == 0x3332_3130 && Word(b, 14) == 0x3736_3534
    ensures Word(b, 15) == 0x0080_3938
  {
    hide Word;
    WordOf(b, 8, 0x67, 0x68, 0x69, 0x6a);
    WordOf(b, 9, 0x6b, 0x6c, 0x6d, 0x6e);
    WordOf(b, 10, 0x6f, 0x70, 0x71, 0x72);
    WordOf(b, 11, 0x73, 0x74, 0x75, 0x76);
    WordOf(b, 12, 0x77, 0x78, 0x79, 0x7a);
    WordOf(b, 13, 0x30, 0x31, 0x32, 0x33);
    WordOf(b, 14, 0x34, 0x35, 0x36, 0x37);
    WordOf(b, 15, 0x38, 0x39, 0x80, 0x00);
  }

  lemma FirstIs(b: seq<Byte>)
    requires |b| == 64 && forall i :: 0 <= i < 64 ==> b[i] == Letters(i / 4)[i % 4]
    ensures FirstBlock(b)
  {
    hide Word, Letters;
    FirstHalf(b);
    SecondHalf(b);
  }

  lemma WordOf(b: seq<Byte>, k: nat, p: Byte, q: Byte, r: Byte, s: Byte)
    requires |b| == 64 && k < 16 && forall i :: 0 <= i < 64 ==> b[i] == Letters(i / 4)[i % 4]
    requires Letters(k)[0] == p && Letters(k)[1] == q && Letters(k)[2] == r && Letters(k)[3] == s
    ensures Word(b, k) == (p as bv32) | ((q as bv32) << 8) | ((r as bv32) << 16) | ((s as bv32) << 24)
  {
    hide *;
    LetterAt(b, k, 0);
    LetterAt(b, k, 1);
    LetterAt(b, k, 2);
    LetterAt(b, k, 3);
    WordFrom(b, k, p, q, r, s);
  }

  lemma LetterAt(b: seq<Byte>, k: nat, j: nat)
    requires |b| == 64 && k < 16 && j < 4 && forall i :: 0 <= i < 64 ==> b[i] == Letters(i / 4)[i % 4]
    ensures b[4 * k + j] == Letters(k)[j]
  {
    hide Letters;
    assert (4 * k + j) / 4 == k && (4 * k + j) % 4 == j;
  }

  lemma WordFrom(b: seq<Byte>, k: nat, p: Byte, q: Byte, r: Byte, s: Byte)
    requires |b| == 64 && k < 16 && b[4 * k] == p && b[4 * k + 1] == q && b[4 * k + 2] == r && b[4 * k + 3] == s
    ensures Word(b, k) == (p as bv32) | ((q as bv32) << 8) | ((r as bv32) << 16) | ((s as bv32) << 24)
  {
  }

  lemma SecondIs(b: seq<Byte>)
    requires |b| == 64 && (forall i :: 0 <= i < 56 ==> b[i] == 0) && b[56] == 0xf0 && b[57] == 0x01
    requires forall i :: 58 <= i < 64 ==> b[i] == 0
    ensures SecondBlock(b)
  {
  }

  /** MD5("ABC...0123456789") = d174ab98d277d9f5a5611c2c9f419d9f */
  lemma SuiteDigest()
    ensures MessageDigest(Message()) ==
            [0xd1, 0x74, 0xab, 0x98, 0xd2, 0x77, 0xd9, 0xf5, 0xa5, 0x61, 0x1c, 0x2c, 0x9f, 0x41, 0x9d, 0x9f]
  {
    hide *;
    PaddedLength(Message());
    var p := Padded(Message());
    PaddedIs(Message(), p);
    MessageFirst(p[..64]);
    FirstIs(p[..64]);
    FirstProcessed(p[..64]);
    SecondIs(p[64..]);
    SecondProcessed(p[64..]);
    TwoBlocks(p);
    DigestIs(Message(), p);
    DigestBytes(Fold(p));
  }

  lemma DigestIs(m: seq<Byte>, p: seq<Byte>)
    requires p == Padded(m) && |p| % 64 == 0
    ensures MessageDigest(m) == Octets(Fold(p))
  {
  }

  lemma TwoBlocks(p: seq<Byte>)
    requires |p| == 128
    ensures Fold(p) == Process(Process(INIT, p[..64]), p[64..])
  {
    hide Process, Fold;
    FoldNone();
    FoldSnoc([], p[..64]);
    assert [] + p[..64] == p[..64];
    FoldSnoc(p[..64], p[64..]);
    assert p[..64] + p[64..] == p;
  }

  lemma FoldNone()
    ensures Fold([]) == INIT
  {
  }

  lemma DigestBytes(r: Digest)
    requires r == Digest(0x98ab_74d1, 0xf5d9_77d2, 0x2c1c_61a5, 0x9f9d_419f)
    ensures Octets(r) ==
            [0xd1, 0x74, 0xab, 0x98, 0xd2, 0x77, 0xd9, 0xf5, 0xa5, 0x61, 0x1c, 0x2c, 0x9f, 0x41, 0x9d, 0x9f]
  {
    hide Octet;
    RegisterBytes(r.a, 0xd1, 0x74, 0xab, 0x98);
    RegisterBytes(r.b, 0xd2, 0x77, 0xd9, 0xf5);
    RegisterBytes(r.c, 0xa5, 0x61, 0x1c, 0x2c);
    RegisterBytes(r.d, 0x9f, 0x41, 0x9d, 0x9f);
  }

  lemma RegisterBytes(w: bv32, p: Byte, q: Byte, r: Byte, s: Byte)
    requires w == (p as bv32) | ((q as bv32) << 8) | ((r as bv32) << 16) | ((s as bv32) << 24)
    ensures Octet(w, 0) == p && Octet(w, 1) == q && Octet(w, 2) == r && Octet(w, 3) == s
  {
    OctetsOf(p, q, r, s);
  }
}
