/** The digest of the three octets "abc", round by round, as in appendix A of FIPS PUB 180-1. */
module Sha1Example {
  import opened Sha1

  /** The only block of the padded message. */
  function Block(): (b: seq<Byte>)
    ensures |b| == BLOCK
  {
    [0x61, 0x62, 0x63, 0x80] + Zeros(59) + [24 as Byte]
  }

  ghost function W(): (w: seq<Word>)
    ensures |w| == 80
  {
    Schedule(Block(), 80)
  }

  /** Word `v` and the word buffers `r` behind round `t`. */
  lemma At(t: nat, v: Word, r: Five)
    requires 16 <= t < 80 && v == Mix(W()[t - 3], W()[t - 8], W()[t - 14], W()[t - 16])
    requires Round(Rounds(START, W(), t), t, v) == r
    ensures W()[t] == v && Rounds(START, W(), t + 1) == r
  {
    hide WordOf, Mix, Round, Schedule;
    ScheduleAt(Block(), 80, t);
  }

  /** The same for the words of the block itself. */
  lemma AtStart(t: nat, v: Word, r: Five)
    requires t < 16 && v == WordOf(Block(), t) && Round(Rounds(START, W(), t), t, v) == r
    ensures W()[t] == v && Rounds(START, W(), t + 1) == r
  {
    hide WordOf, Mix, Round, Schedule;
    ScheduleAt(Block(), 80, t);
  }

  lemma FirstWords()
    ensures WordOf(Block(), 0) == 0x61626380 && WordOf(Block(), 15) == 0x00000018
    ensures WordOf(Block(), 1) == WordOf(Block(), 2) == WordOf(Block(), 3) == WordOf(Block(), 4) == WordOf(Block(), 5) == 0
    ensures WordOf(Block(), 6) == WordOf(Block(), 7) == WordOf(Block(), 8) == WordOf(Block(), 9) == WordOf(Block(), 10) == 0
    ensures WordOf(Block(), 11) == WordOf(Block(), 12) == WordOf(Block(), 13) == WordOf(Block(), 14) == 0
  {
    var b := Block();
    assert b[0] == 0x61 && b[1] == 0x62 && b[2] == 0x63 && b[3] == 0x80 && b[60] == b[61] == b[62] == 0 && b[63] == 24;
    assert forall k :: 4 <= k < 60 ==> b[k] == 0;
  }

  lemma Rounds0To15()
    ensures var w := W();
            w[0] == 0x61626380 && w[1] == 0x00000000 && w[2] == 0x00000000 && w[3] == 0x00000000
            && w[4] == 0x00000000 && w[5] == 0x00000000 && w[6] == 0x00000000 && w[7] == 0x00000000
            && w[8] == 0x00000000 && w[9] == 0x00000000 && w[10] == 0x00000000 && w[11] == 0x00000000
            && w[12] == 0x00000000 && w[13] == 0x00000000 && w[14] == 0x00000000 && w[15] == 0x00000018
    ensures Rounds(START, W(), 16) == Five(0x20BDD62F, 0x196BEE77, 0x644A3DA5, 0x1181ED99, 0x18C623F9)
  {
    hide W, Rounds, Block, WordOf;
    FirstWords();
    StartRounds(START, W());
    AtStart(0, 0x61626380, Five(0x0116FC33, 0x67452301, 0x7BF36AE2, 0x98BADCFE, 0x10325476));
    AtStart(1, 0x00000000, Five(0x8990536D, 0x0116FC33, 0x59D148C0, 0x7BF36AE2, 0x98BADCFE));
    AtStart(2, 0x00000000, Five(0xA1390F08, 0x8990536D, 0xC045BF0C, 0x59D148C0, 0x7BF36AE2));
    AtStart(3, 0x00000000, Five(0xCDD8E11B, 0xA1390F08, 0x626414DB, 0xC045BF0C, 0x59D148C0));
    AtStart(4, 0x00000000, Five(0xCFD499DE, 0xCDD8E11B, 0x284E43C2, 0x626414DB, 0xC045BF0C));
    AtStart(5, 0x00000000, Five(0x3FC7CA40, 0xCFD499DE, 0xF3763846, 0x284E43C2, 0x626414DB));
    AtStart(6, 0x00000000, Five(0x993E30C1, 0x3FC7CA40, 0xB3F52677, 0xF3763846, 0x284E43C2));
    AtStart(7, 0x00000000, Five(0x9E8C07D4, 0x993E30C1, 0x0FF1F290, 0xB3F52677, 0xF3763846));
    AtStart(8, 0x00000000, Five(0x4B6AE328, 0x9E8C07D4, 0x664F8C30, 0x0FF1F290, 0xB3F52677));
    AtStart(9, 0x00000000, Five(0x8351F929, 0x4B6AE328, 0x27A301F5, 0x664F8C30, 0x0FF1F290));
    AtStart(10, 0x00000000, Five(0xFBDA9E89, 0x8351F929, 0x12DAB8CA, 0x27A301F5, 0x664F8C30));
    AtStart(11, 0x00000000, Five(0x63188FE4, 0xFBDA9E89, 0x60D47E4A, 0x12DAB8CA, 0x27A301F5));
    AtStart(12, 0x00000000, Five(0x4607B664, 0x63188FE4, 0x7EF6A7A2, 0x60D47E4A, 0x12DAB8CA));
    AtStart(13, 0x00000000, Five(0x9128F695, 0x4607B664, 0x18C623F9, 0x7EF6A7A2, 0x60D47E4A));
    AtStart(14, 0x00000000, Five(0x196BEE77, 0x9128F695, 0x1181ED99, 0x18C623F9, 0x7EF6A7A2));
    AtStart(15, 0x00000018, Five(0x20BDD62F, 0x196BEE77, 0x644A3DA5, 0x1181ED99, 0x18C623F9));
  }

  lemma Rounds16To31()
    requires var w := W();
             w[0] == 0x61626380 && w[1] == 0x00000000 && w[2] == 0x00000000 && w[3] == 0x00000000
             && w[4] == 0x00000000 && w[5] == 0x00000000 && w[6] == 0x00000000 && w[7] == 0x00000000
             && w[8] == 0x00000000 && w[9] == 0x00000000 && w[10] == 0x00000000 && w[11] == 0x00000000
             && w[12] == 0x00000000 && w[13] == 0x00000000 && w[14] == 0x00000000 && w[15] == 0x00000018
    requires Rounds(START, W(), 16) == Five(0x20BDD62F, 0x196BEE77, 0x644A3DA5, 0x1181ED99, 0x18C623F9)
    ensures var w := W();
            w[16] == 0xC2C4C700 && w[17] == 0x00000000 && w[18] == 0x00000030 && w[19] == 0x85898E01
            && w[20] == 0x00000000 && w[21] == 0x00000060 && w[22] == 0x0B131C03 && w[23] == 0x00000030
            && w[24] == 0x85898EC1 && w[25] == 0x16263806 && w[26] == 0x00000000 && w[27] == 0x00000180
            && w[28] == 0x2C4C700C && w[29] == 0x000000F0 && w[30] == 0x93AFB507 && w[31] == 0x5898E048
    ensures Rounds(START, W(), 32) == Five(0x3B845D33, 0x1267B407, 0x717EEBD7, 0xA0DC2D4B, 0xD2AA1365)
  {
    hide W, Rounds, Block, WordOf;
    At(16, 0xC2C4C700, Five(0x4E925823, 0x20BDD62F, 0xC65AFB9D, 0x644A3DA5, 0x1181ED99));
    At(17, 0x00000000, Five(0x82AA6728, 0x4E925823, 0xC82F758B, 0xC65AFB9D, 0x644A3DA5));
    At(18, 0x00000030, Five(0xDC64901D, 0x82AA6728, 0xD3A49608, 0xC82F758B, 0xC65AFB9D));
    At(19, 0x85898E01, Five(0xFD9E1D7D, 0xDC64901D, 0x20AA99CA, 0xD3A49608, 0xC82F758B));
    At(20, 0x00000000, Five(0x1A37B0CA, 0xFD9E1D7D, 0x77192407, 0x20AA99CA, 0xD3A49608));
    At(21, 0x00000060, Five(0x33A23BFC, 0x1A37B0CA, 0x7F67875F, 0x77192407, 0x20AA99CA));
    At(22, 0x0B131C03, Five(0x21283486, 0x33A23BFC, 0x868DEC32, 0x7F67875F, 0x77192407));
    At(23, 0x00000030, Five(0xD541F12D, 0x21283486, 0x0CE88EFF, 0x868DEC32, 0x7F67875F));
    At(24, 0x85898EC1, Five(0xC7567DC6, 0xD541F12D, 0x884A0D21, 0x0CE88EFF, 0x868DEC32));
    At(25, 0x16263806, Five(0x48413BA4, 0xC7567DC6, 0x75507C4B, 0x884A0D21, 0x0CE88EFF));
    At(26, 0x00000000, Five(0xBE35FBD5, 0x48413BA4, 0xB1D59F71, 0x75507C4B, 0x884A0D21));
    At(27, 0x00000180, Five(0x4AA84D97, 0xBE35FBD5, 0x12104EE9, 0xB1D59F71, 0x75507C4B));
    At(28, 0x2C4C700C, Five(0x8370B52E, 0x4AA84D97, 0x6F8D7EF5, 0x12104EE9, 0xB1D59F71));
    At(29, 0x000000F0, Five(0xC5FBAF5D, 0x8370B52E, 0xD2AA1365, 0x6F8D7EF5, 0x12104EE9));
    At(30, 0x93AFB507, Five(0x1267B407, 0xC5FBAF5D, 0xA0DC2D4B, 0xD2AA1365, 0x6F8D7EF5));
    At(31, 0x5898E048, Five(0x3B845D33, 0x1267B407, 0x717EEBD7, 0xA0DC2D4B, 0xD2AA1365));
  }

  lemma Rounds32To47()
    requires var w := W();
             w[16] == 0xC2C4C700 && w[17] == 0x00000000 && w[18] == 0x00000030 && w[19] == 0x85898E01
             && w[20] == 0x00000000 && w[21] == 0x00000060 && w[22] == 0x0B131C03 && w[23] == 0x00000030
             && w[24] == 0x85898EC1 && w[25] == 0x16263806 && w[26] == 0x00000000 && w[27] == 0x00000180
             && w[28] == 0x2C4C700C && w[29] == 0x000000F0 && w[30] == 0x93AFB507 && w[31] == 0x5898E048
    requires Rounds(START, W(), 32) == Five(0x3B845D33, 0x1267B407, 0x717EEBD7, 0xA0DC2D4B, 0xD2AA1365)
    ensures var w := W();
            w[32] == 0x8E9A9202 && w[33] == 0x00000600 && w[34] == 0xB131C0F0 && w[35] == 0x16263BC6
            && w[36] == 0x4EBED41E && w[37] == 0x626380A1 && w[38] == 0x16263806 && w[39] == 0x000018C0
            && w[40] == 0xD2E138C4 && w[41] == 0x00000F00 && w[42] == 0x3AFB5079 && w[43] == 0x898E04E5
            && w[44] == 0xE2BA3C2B && w[45] == 0x000060C0 && w[46] == 0x053A37CD && w[47] == 0x74458547
    ensures Rounds(START, W(), 48) == Five(0xBEAD02CA, 0xA01B846C, 0x8714787C, 0x503CA382, 0xFB86C6AB)
  {
    hide W, Rounds, Block, WordOf;
    At(32, 0x8E9A9202, Five(0x046FAA0A, 0x3B845D33, 0xC499ED01, 0x717EEBD7, 0xA0DC2D4B));
    At(33, 0x00000600, Five(0x2C0EBC11, 0x046FAA0A, 0xCEE1174C, 0xC499ED01, 0x717EEBD7));
    At(34, 0xB131C0F0, Five(0x21796AD4, 0x2C0EBC11, 0x811BEA82, 0xCEE1174C, 0xC499ED01));
    At(35, 0x16263BC6, Five(0xDCBBB0CB, 0x21796AD4, 0x4B03AF04, 0x811BEA82, 0xCEE1174C));
    At(36, 0x4EBED41E, Five(0x0F511FD8, 0xDCBBB0CB, 0x085E5AB5, 0x4B03AF04, 0x811BEA82));
    At(37, 0x626380A1, Five(0xDC63973F, 0x0F511FD8, 0xF72EEC32, 0x085E5AB5, 0x4B03AF04));
    At(38, 0x16263806, Five(0x4C986405, 0xDC63973F, 0x03D447F6, 0xF72EEC32, 0x085E5AB5));
    At(39, 0x000018C0, Five(0x32DE1CBA, 0x4C986405, 0xF718E5CF, 0x03D447F6, 0xF72EEC32));
    At(40, 0xD2E138C4, Five(0xFC87DEDF, 0x32DE1CBA, 0x53261901, 0xF718E5CF, 0x03D447F6));
    At(41, 0x00000F00, Five(0x970A0D5C, 0xFC87DEDF, 0x8CB7872E, 0x53261901, 0xF718E5CF));
    At(42, 0x3AFB5079, Five(0x7F193DC5, 0x970A0D5C, 0xFF21F7B7, 0x8CB7872E, 0x53261901));
    At(43, 0x898E04E5, Five(0xEE1B1AAF, 0x7F193DC5, 0x25C28357, 0xFF21F7B7, 0x8CB7872E));
    At(44, 0xE2BA3C2B, Five(0x40F28E09, 0xEE1B1AAF, 0x5FC64F71, 0x25C28357, 0xFF21F7B7));
    At(45, 0x000060C0, Five(0x1C51E1F2, 0x40F28E09, 0xFB86C6AB, 0x5FC64F71, 0x25C28357));
    At(46, 0x053A37CD, Five(0xA01B846C, 0x1C51E1F2, 0x503CA382, 0xFB86C6AB, 0x5FC64F71));
    At(47, 0x74458547, Five(0xBEAD02CA, 0xA01B846C, 0x8714787C, 0x503CA382, 0xFB86C6AB));
  }

  lemma Rounds48To63()
    requires var w := W();
             w[32] == 0x8E9A9202 && w[33] == 0x00000600 && w[34] == 0xB131C0F0 && w[35] == 0x16263BC6
             && w[36] == 0x4EBED41E && w[37] == 0x626380A1 && w[38] == 0x16263806 && w[39] == 0x000018C0
             && w[40] == 0xD2E138C4 && w[41] == 0x00000F00 && w[42] == 0x3AFB5079 && w[43] == 0x898E04E5
             && w[44] == 0xE2BA3C2B && w[45] == 0x000060C0 && w[46] == 0x053A37CD && w[47] == 0x74458547
    requires Rounds(START, W(), 48) == Five(0xBEAD02CA, 0xA01B846C, 0x8714787C, 0x503CA382, 0xFB86C6AB)
    ensures var w := W();
            w[48] == 0xDA9415ED && w[49] == 0x26380A16 && w[50] == 0x626383A1 && w[51] == 0x4EBF54DE
            && w[52] == 0x3835B44B && w[53] == 0x0000F600 && w[54] == 0x1E84C7A3 && w[55] == 0x98E04D98
            && w[56] == 0x651D16A0 && w[57] == 0x62658CA1 && w[58] == 0x458544D6 && w[59] == 0x44584CB7
            && w[60] == 0x7BA06619 && w[61] == 0x6380AEA2 && w[62] == 0x0AE55269 && w[63] == 0x627B49A1
    ensures Rounds(START, W(), 64) == Five(0x6B61C9E1, 0xB66C020B, 0x9523272C, 0xF5D5B051, 0x8FD4B796)
  {
    hide W, Rounds, Block, WordOf;
    At(48, 0xDA9415ED, Five(0xBAF39337, 0xBEAD02CA, 0x2806E11B, 0x8714787C, 0x503CA382));
    At(49, 0x26380A16, Five(0x120731C5, 0xBAF39337, 0xAFAB40B2, 0x2806E11B, 0x8714787C));
    At(50, 0x626383A1, Five(0x641DB2CE, 0x120731C5, 0xEEBCE4CD, 0xAFAB40B2, 0x2806E11B));
    At(51, 0x4EBF54DE, Five(0x3847AD66, 0x641DB2CE, 0x4481CC71, 0xEEBCE4CD, 0xAFAB40B2));
    At(52, 0x3835B44B, Five(0xE490436D, 0x3847AD66, 0x99076CB3, 0x4481CC71, 0xEEBCE4CD));
    At(53, 0x0000F600, Five(0x27E9F1D8, 0xE490436D, 0x8E11EB59, 0x99076CB3, 0x4481CC71));
    At(54, 0x1E84C7A3, Five(0x7B71F76D, 0x27E9F1D8, 0x792410DB, 0x8E11EB59, 0x99076CB3));
    At(55, 0x98E04D98, Five(0x5E6456AF, 0x7B71F76D, 0x09FA7C76, 0x792410DB, 0x8E11EB59));
    At(56, 0x651D16A0, Five(0xC846093F, 0x5E6456AF, 0x5EDC7DDB, 0x09FA7C76, 0x792410DB));
    At(57, 0x62658CA1, Five(0xD262FF50, 0xC846093F, 0xD79915AB, 0x5EDC7DDB, 0x09FA7C76));
    At(58, 0x458544D6, Five(0x09D785FD, 0xD262FF50, 0xF211824F, 0xD79915AB, 0x5EDC7DDB));
    At(59, 0x44584CB7, Five(0x3F52DE5A, 0x09D785FD, 0x3498BFD4, 0xF211824F, 0xD79915AB));
    At(60, 0x7BA06619, Five(0xD756C147, 0x3F52DE5A, 0x4275E17F, 0x3498BFD4, 0xF211824F));
    At(61, 0x6380AEA2, Five(0x548C9CB2, 0xD756C147, 0x8FD4B796, 0x4275E17F, 0x3498BFD4));
    At(62, 0x0AE55269, Five(0xB66C020B, 0x548C9CB2, 0xF5D5B051, 0x8FD4B796, 0x4275E17F));
    At(63, 0x627B49A1, Five(0x6B61C9E1, 0xB66C020B, 0x9523272C, 0xF5D5B051, 0x8FD4B796));
  }

  lemma Rounds64To79()
    requires var w := W();
             w[48] == 0xDA9415ED && w[49] == 0x26380A16 && w[50] == 0x626383A1 && w[51] == 0x4EBF54DE
             && w[52] == 0x3835B44B && w[53] == 0x0000F600 && w[54] == 0x1E84C7A3 && w[55] == 0x98E04D98
             && w[56] == 0x651D16A0 && w[57] == 0x62658CA1 && w[58] == 0x458544D6 && w[59] == 0x44584CB7
             && w[60] == 0x7BA06619 && w[61] == 0x6380AEA2 && w[62] == 0x0AE55269 && w[63] == 0x627B49A1
    requires Rounds(START, W(), 64) == Five(0x6B61C9E1, 0xB66C020B, 0x9523272C, 0xF5D5B051, 0x8FD4B796)
    ensures Rounds(START, W(), 80) == Five(0x42541B35, 0x5738D5E1, 0x21834873, 0x681E6DF6, 0xD8FDF6AD)
  {
    hide W, Rounds, Block, WordOf;
    At(64, 0x7CD45C9D, Five(0x19DFA7AC, 0x6B61C9E1, 0xED9B0082, 0x9523272C, 0xF5D5B051));
    At(65, 0x000F0000, Five(0x101655F9, 0x19DFA7AC, 0x5AD87278, 0xED9B0082, 0x9523272C));
    At(66, 0xFB50753A, Five(0x0C3DF2B4, 0x101655F9, 0x0677E9EB, 0x5AD87278, 0xED9B0082));
    At(67, 0xEC6765E8, Five(0x78DD4D2B, 0x0C3DF2B4, 0x4405957E, 0x0677E9EB, 0x5AD87278));
    At(68, 0xBA3C2BE2, Five(0x497093C0, 0x78DD4D2B, 0x030F7CAD, 0x4405957E, 0x0677E9EB));
    At(69, 0x0060C000, Five(0x3F2588C2, 0x497093C0, 0xDE37534A, 0x030F7CAD, 0x4405957E));
    At(70, 0x3A37CD05, Five(0xC199F8C7, 0x3F2588C2, 0x125C24F0, 0xDE37534A, 0x030F7CAD));
    At(71, 0x458546F4, Five(0x39859DE7, 0xC199F8C7, 0x8FC96230, 0x125C24F0, 0xDE37534A));
    At(72, 0xB8599DD6, Five(0xEDB42DE4, 0x39859DE7, 0xF0667E31, 0x8FC96230, 0x125C24F0));
    At(73, 0x380A1A26, Five(0x11793F6F, 0xEDB42DE4, 0xCE616779, 0xF0667E31, 0x8FC96230));
    At(74, 0x01E02203, Five(0x5EE76897, 0x11793F6F, 0x3B6D0B79, 0xCE616779, 0xF0667E31));
    At(75, 0xE7CC3456, Five(0x63F7DAB7, 0x5EE76897, 0xC45E4FDB, 0x3B6D0B79, 0xCE616779));
    At(76, 0xE6E60B69, Five(0xA079B7D9, 0x63F7DAB7, 0xD7B9DA25, 0xC45E4FDB, 0x3B6D0B79));
    At(77, 0x00F60A00, Five(0x860D21CC, 0xA079B7D9, 0xD8FDF6AD, 0xD7B9DA25, 0xC45E4FDB));
    At(78, 0x5795EF4F, Five(0x5738D5E1, 0x860D21CC, 0x681E6DF6, 0xD8FDF6AD, 0xD7B9DA25));
    At(79, 0x822E0879, Five(0x42541B35, 0x5738D5E1, 0x21834873, 0x681E6DF6, 0xD8FDF6AD));
  }

  /** The digest of "abc". */
  lemma DigestOfAbc()
    ensures Digest([0x61, 0x62, 0x63]) == Five(0xA9993E36, 0x4706816A, 0xBA3E2571, 0x7850C26C, 0x9CD0D89D)
  {
    var m: seq<Byte> := [0x61, 0x62, 0x63];
    BlockOfAbc(m);
    hide Digest, W, Rounds, Block;
    Rounds0To15();
    Rounds16To31();
    Rounds32To47();
    Rounds48To63();
    Rounds64To79();
  }

  lemma BlockOfAbc(m: seq<Byte>)
    requires m == [0x61, 0x62, 0x63]
    ensures Digest(m) == Add(START, Rounds(START, W(), 80))
  {
    hide Hash, Rounds, Schedule, Digest, Octets, Zeros;
    BlockIs(m);
    NothingHashed(m);
    OneBlock(m, Block(), START);
  }

  lemma BlockIs(m: seq<Byte>)
    requires m == [0x61, 0x62, 0x63]
    ensures Block() == m + [0x80 as Byte] + Zeros(52) + Sha1.Octets(24)
  {
    LengthIs24(Sha1.Octets(24));
    var c := m + [0x80 as Byte] + Zeros(52) + Sha1.Octets(24);
    assert |c| == BLOCK && c[63] == 24 && forall k :: 4 <= k < 63 ==> c[k] == 0;
  }

  lemma LengthIs24(s: seq<Byte>)
    requires s == Sha1.Octets(24)
    ensures |s| == 8 && s[7] == 24 && forall k :: 0 <= k < 7 ==> s[k] == 0
  {
    hide ByteAt;
    HighByte(24, 0x100);
    HighByte(24, 0x1_0000);
    HighByte(24, 0x100_0000);
    HighByte(24, 0x1_0000_0000);
    HighByte(24, 0x100_0000_0000);
    HighByte(24, 0x1_0000_0000_0000);
    HighByte(24, 0x100_0000_0000_0000);
    LowByte(24);
  }

  lemma HighByte(n: nat, unit: nat)
    requires n < unit
    ensures ByteAt(n, unit) == 0
  {
  }

  lemma LowByte(n: nat)
    requires n < 256
    ensures ByteAt(n, 1) == n as Byte
  {
  }

  lemma NothingHashed(m: seq<Byte>)
    requires |m| == 3
    ensures Hash(START, m[..|m| - 3]) == START && m[|m| - 3..] == m
  {
  }
}
