/** Where the two tables of src/npulib/npu_math.c come from: the powers of e^(-1/32), rounded.

    Powers are kept to 40 bits, each step rounding down. */
module Tables {
  import opened Layout
  import opened Attention
  import opened Sigmoid

  const UNIT: nat := 0x100_0000_0000
  const RATIO: nat := 1065683211333

  /** Sum of the first n terms of the series of e^(-1/32), as a fraction. */
  function Partial(n: nat): (int, int) {
    if n <= 1 then (1, 1)
    else
      var (a, b) := Partial(n - 1);
      var m := 32 * (n - 1);
      (a * m + if n % 2 == 1 then 1 else -1, b * m)
  }

  /** RATIO is e^(-1/32) to 40 bits: the alternating series brings it between its sums of
      eight and of nine terms, and both lie within the last bit. */
  lemma RatioIsExp()
    ensures
      var (a, b) := Partial(8);
      var (c, d) := Partial(9);
      b > 0 && d > 0 && RATIO * b <= UNIT * a && UNIT * c < (RATIO + 1) * d && a * d < c * b
  {
  }

  function Lower(p: nat): nat { p * RATIO / UNIT }

  /** e^(-d/32) */
  function Power(d: nat): nat { if d == 0 then UNIT else Lower(Power(d - 1)) }

  /** e is a / b rounded to nearest, halves upward. */
  predicate Rounds(e: int, a: nat, b: nat) { (2 * e - 1) * b <= 2 * a < (2 * e + 1) * b }

  /** An entry of the exponential table for the power p. */
  predicate ExpEntry(e: int, p: nat) { Rounds(e, 1024 * p, UNIT) }

  /** 255 / (1 + e^(-x)) - 128 and 255 / (1 + e^x) - 128 for e^(-x) == p. */
  predicate SigmoidEntry(e: int, p: nat) { Rounds(e + 128, 255 * UNIT, UNIT + p) }
  predicate MirrorEntry(e: int, p: nat) { Rounds(e + 128, 255 * p, UNIT + p) }

  /** p' is p lowered, without a division. */
  predicate Lowered(p: nat, p': nat) { p' * UNIT <= p * RATIO < p' * UNIT + UNIT }

  // ---------------------------------------------------------------- sixteen powers at a time

  const P0: seq<nat> := [1099511627776, 1065683211333, 1032895585846, 1001116729545, 970315605864, 940462133133, 911527155198, 883482412945, 856300516701,
                      829954919485, 804419891081, 779670492909, 755682553667, 732432645727, 709898062253, 688056795025, 666887512945]
  const P1: seq<nat> := [666887512945, 646369541203, 626482841086, 607207990409, 588526164543, 570419118033, 552869166777, 535859170757, 519372517296,
                      503393104836, 487905327212, 472894058411, 458344637798, 444242855797, 430574940016, 417327541795, 404487723169]
  const P2: seq<nat> := [404487723169, 392042944232, 379981050891, 368290262994, 356959162827, 345976683962, 335332100449, 325015016341, 315015355541,
                      305323351960, 295929539981, 286824745212, 278000075529, 269446912389, 261156902414, 253121949232, 245334205570]
  const P3: seq<nat> := [245334205570, 237786065592, 230470157466, 223379336170, 216506676511, 209845466360, 203389200100, 197131572270, 191066471408,
                      185187974082, 179490339105, 173968001927, 168615569202, 163427813520, 158399668301, 153526222847, 148802717546]
  const P4: seq<nat> := [148802717546, 144224539225, 139787216643, 135486416125, 131317937328, 127277709141, 123361785707, 119566342571, 115887672944,
                      112322184083, 108866393782, 105516926971, 102270512420, 99123979544, 96074255307, 93118361221, 90253410435]
  const P5: seq<nat> := [90253410435, 87476604918, 84785232725, 82176665349, 79648355154, 77197832886, 74822705262, 72520652633, 70289426717,
                      68126848406, 66030805635, 63999251320, 62030201360, 60121732699, 58271981446, 56479141056, 54741460566]
  const P6: seq<nat> := [54741460566, 53057242884, 51424843132, 49842667041, 48309169391, 46822852503, 45382264778, 43985999278, 42632692351,
                      41321022301, 40049708096, 38817508117, 37623218946, 36465674190, 35343743342, 34256330677, 33202374183]
  const P7: seq<nat> := [33202374183, 32180844521, 31190744023, 30231105715, 29300992373, 28399495611, 27525734988, 26678857153, 25858035010,
                      25062466909, 24291375866, 23544008800, 22819635801, 22117549416, 21437063959, 20777514838, 20138257910]
  const P8: seq<nat> := [20138257910, 19518668850, 18918142542, 18336092486, 17771950227, 17225164801, 16695202194, 16181544822, 15683691026,
                      15201154581, 14733464222, 14280163182, 13840808749, 13414971831, 13002236538, 12602199775, 12214470849]
  const P9: seq<nat> := [12214470849, 11838671088, 11474433470, 11121402265, 10779232689, 10447590564, 10126151994, 9814603049, 9512639458,
                      9219966310, 8936297768, 8661356789, 8394874855, 8136591708, 7886255098, 7643620536, 7408451055]
  const P10: seq<nat> := [7408451055, 7180516978, 6959595695, 6745471446, 6537935107, 6336783990, 6141821642, 5952857655, 5769707479,
                      5592192241, 5420138573, 5253378440, 5091748977, 4935092330, 4783255501, 4636090200, 4493452699]
  const P11: seq<nat> := [4493452699, 4355203693, 4221208162, 4091335240, 3965458087, 3843453767, 3725203126, 3610590674, 3499504477,
                      3391836043, 3287480218, 3186335084, 3088301859, 2993284799, 2901191107, 2811930840, 2725416823]
  const P12: seq<nat> := [2725416823, 2641564562, 2560292164, 2481520255, 2405171903, 2331172543, 2259449903, 2189933937, 2122556753,
                      2057252547, 1993957540, 1932609915, 1873149758, 1815518998, 1759661350, 1705522261, 1653048857]
  const P13: seq<nat> := [1653048857, 1602189890, 1552895689, 1505118111, 1458810494, 1413927613, 1370425633, 1328262068, 1287395740,
                      1247786737, 1209396375, 1172187160, 1136122752, 1101167929, 1067288553, 1034451536, 1002624808]
  const P14: seq<nat> := [1002624808, 971777285, 941878841, 912900275, 884813286, 857590443, 831205158, 805631663, 780844982,
                      756820907, 733535975, 710967445, 689093276, 667892104, 647343224, 627426566, 608122679]
  const P15: seq<nat> := [608122679, 589412711, 571278388, 553701999, 536666379, 520154890, 504151406, 488640297, 473606415,
                      459035077, 444912052, 431223547, 417956193, 405097032, 392633506, 380553442, 368845043]

  /** Powers 16 * q to 16 * q + 16. */
  function Powers(q: nat): (c: seq<nat>)
    requires q < 16
    ensures |c| == 17
  {
    if q < 8 then
      if q < 4 then if q == 0 then P0 else if q == 1 then P1 else if q == 2 then P2 else P3
      else if q == 4 then P4 else if q == 5 then P5 else if q == 6 then P6 else P7
    else if q < 12 then if q == 8 then P8 else if q == 9 then P9 else if q == 10 then P10 else P11
    else if q == 12 then P12 else if q == 13 then P13 else if q == 14 then P14 else P15
  }

  /** Each is the one before it, lowered. */
  ghost predicate Chain(c: seq<nat>) { |c| == 17 && Quarter(c, 0) && Quarter(c, 4) && Quarter(c, 8) && Quarter(c, 12) }

  ghost predicate Quarter(c: seq<nat>, i: nat)
    requires i + 4 < |c|
  {
    Lowered(c[i], c[i + 1]) && Lowered(c[i + 1], c[i + 2]) && Lowered(c[i + 2], c[i + 3]) && Lowered(c[i + 3], c[i + 4])
  }

  /** A row of the exponential table. */
  ghost predicate Exps(c: seq<nat>, r: seq<nat>) {
    && |c| == 17 && |r| == 16
    && ExpEntry(r[0], c[0]) && ExpEntry(r[1], c[1]) && ExpEntry(r[2], c[2]) && ExpEntry(r[3], c[3])
    && ExpEntry(r[4], c[4]) && ExpEntry(r[5], c[5]) && ExpEntry(r[6], c[6]) && ExpEntry(r[7], c[7])
    && ExpEntry(r[8], c[8]) && ExpEntry(r[9], c[9]) && ExpEntry(r[10], c[10]) && ExpEntry(r[11], c[11])
    && ExpEntry(r[12], c[12]) && ExpEntry(r[13], c[13]) && ExpEntry(r[14], c[14]) && ExpEntry(r[15], c[15])
  }

  /** A row of the first half of the sigmoid table, and one of the second, where x falls. */
  ghost predicate Sigmoids(c: seq<nat>, r: seq<int>) {
    && |c| == 17 && |r| == 16
    && SigmoidEntry(r[0], c[0]) && SigmoidEntry(r[1], c[1]) && SigmoidEntry(r[2], c[2]) && SigmoidEntry(r[3], c[3])
    && SigmoidEntry(r[4], c[4]) && SigmoidEntry(r[5], c[5]) && SigmoidEntry(r[6], c[6]) && SigmoidEntry(r[7], c[7])
    && SigmoidEntry(r[8], c[8]) && SigmoidEntry(r[9], c[9]) && SigmoidEntry(r[10], c[10]) && SigmoidEntry(r[11], c[11])
    && SigmoidEntry(r[12], c[12]) && SigmoidEntry(r[13], c[13]) && SigmoidEntry(r[14], c[14]) && SigmoidEntry(r[15], c[15])
  }

  ghost predicate Mirrors(c: seq<nat>, r: seq<int>) {
    && |c| == 17 && |r| == 16
    && MirrorEntry(r[0], c[16]) && MirrorEntry(r[1], c[15]) && MirrorEntry(r[2], c[14]) && MirrorEntry(r[3], c[13])
    && MirrorEntry(r[4], c[12]) && MirrorEntry(r[5], c[11]) && MirrorEntry(r[6], c[10]) && MirrorEntry(r[7], c[9])
    && MirrorEntry(r[8], c[8]) && MirrorEntry(r[9], c[7]) && MirrorEntry(r[10], c[6]) && MirrorEntry(r[11], c[5])
    && MirrorEntry(r[12], c[4]) && MirrorEntry(r[13], c[3]) && MirrorEntry(r[14], c[2]) && MirrorEntry(r[15], c[1])
  }

  lemma Chain0()
    ensures Chain(P0) && P0[16] == P1[0]
  {
    assert Quarter(P0, 0) && Quarter(P0, 4) && Quarter(P0, 8) && Quarter(P0, 12);
  }

  lemma Chain1()
    ensures Chain(P1) && P1[16] == P2[0]
  {
    assert Quarter(P1, 0) && Quarter(P1, 4) && Quarter(P1, 8) && Quarter(P1, 12);
  }

  lemma Chain2()
    ensures Chain(P2) && P2[16] == P3[0]
  {
    assert Quarter(P2, 0) && Quarter(P2, 4) && Quarter(P2, 8) && Quarter(P2, 12);
  }

  lemma Chain3()
    ensures Chain(P3) && P3[16] == P4[0]
  {
    assert Quarter(P3, 0) && Quarter(P3, 4) && Quarter(P3, 8) && Quarter(P3, 12);
  }

  lemma Chain4()
    ensures Chain(P4) && P4[16] == P5[0]
  {
    assert Quarter(P4, 0) && Quarter(P4, 4) && Quarter(P4, 8) && Quarter(P4, 12);
  }

  lemma Chain5()
    ensures Chain(P5) && P5[16] == P6[0]
  {
    assert Quarter(P5, 0) && Quarter(P5, 4) && Quarter(P5, 8) && Quarter(P5, 12);
  }

  lemma Chain6()
    ensures Chain(P6) && P6[16] == P7[0]
  {
    assert Quarter(P6, 0) && Quarter(P6, 4) && Quarter(P6, 8) && Quarter(P6, 12);
  }

  lemma Chain7()
    ensures Chain(P7) && P7[16] == P8[0]
  {
    assert Quarter(P7, 0) && Quarter(P7, 4) && Quarter(P7, 8) && Quarter(P7, 12);
  }

  lemma Chain8()
    ensures Chain(P8) && P8[16] == P9[0]
  {
    assert Quarter(P8, 0) && Quarter(P8, 4) && Quarter(P8, 8) && Quarter(P8, 12);
  }

  lemma Chain9()
    ensures Chain(P9) && P9[16] == P10[0]
  {
    assert Quarter(P9, 0) && Quarter(P9, 4) && Quarter(P9, 8) && Quarter(P9, 12);
  }

  lemma Chain10()
    ensures Chain(P10) && P10[16] == P11[0]
  {
    assert Quarter(P10, 0) && Quarter(P10, 4) && Quarter(P10, 8) && Quarter(P10, 12);
  }

  lemma Chain11()
    ensures Chain(P11) && P11[16] == P12[0]
  {
    assert Quarter(P11, 0) && Quarter(P11, 4) && Quarter(P11, 8) && Quarter(P11, 12);
  }

  lemma Chain12()
    ensures Chain(P12) && P12[16] == P13[0]
  {
    assert Quarter(P12, 0) && Quarter(P12, 4) && Quarter(P12, 8) && Quarter(P12, 12);
  }

  lemma Chain13()
    ensures Chain(P13) && P13[16] == P14[0]
  {
    assert Quarter(P13, 0) && Quarter(P13, 4) && Quarter(P13, 8) && Quarter(P13, 12);
  }

  lemma Chain14()
    ensures Chain(P14) && P14[16] == P15[0]
  {
    assert Quarter(P14, 0) && Quarter(P14, 4) && Quarter(P14, 8) && Quarter(P14, 12);
  }

  lemma Chain15()
    ensures Chain(P15)
  {
    assert Quarter(P15, 0) && Quarter(P15, 4) && Quarter(P15, 8) && Quarter(P15, 12);
  }

  lemma Exps0()
    ensures Exps(P0, ExpRow(0))
  {
  }

  lemma Exps1()
    ensures Exps(P1, ExpRow(1))
  {
  }

  lemma Exps2()
    ensures Exps(P2, ExpRow(2))
  {
  }

  lemma Exps3()
    ensures Exps(P3, ExpRow(3))
  {
  }

  lemma Exps4()
    ensures Exps(P4, ExpRow(4))
  {
  }

  lemma Exps5()
    ensures Exps(P5, ExpRow(5))
  {
  }

  lemma Exps6()
    ensures Exps(P6, ExpRow(6))
  {
  }

  lemma Exps7()
    ensures Exps(P7, ExpRow(7))
  {
  }

  lemma Exps8()
    ensures Exps(P8, ExpRow(8))
  {
  }

  lemma Exps9()
    ensures Exps(P9, ExpRow(9))
  {
  }

  lemma Exps10()
    ensures Exps(P10, ExpRow(10))
  {
  }

  lemma Exps11()
    ensures Exps(P11, ExpRow(11))
  {
  }

  lemma Exps12()
    ensures Exps(P12, ExpRow(12))
  {
  }

  lemma Exps13()
    ensures Exps(P13, ExpRow(13))
  {
  }

  lemma Exps14()
    ensures Exps(P14, ExpRow(14))
  {
  }

  lemma Exps15()
    ensures Exps(P15, ExpRow(15))
  {
  }

  lemma Sigmoids0()
    ensures Sigmoids(P0, Rows0(0))
  {
  }

  lemma Sigmoids1()
    ensures Sigmoids(P1, Rows0(1))
  {
  }

  lemma Sigmoids2()
    ensures Sigmoids(P2, Rows0(2))
  {
  }

  lemma Sigmoids3()
    ensures Sigmoids(P3, Rows0(3))
  {
  }

  lemma Sigmoids4()
    ensures Sigmoids(P4, Rows4(0))
  {
  }

  lemma Sigmoids5()
    ensures Sigmoids(P5, Rows4(1))
  {
  }

  lemma Sigmoids6()
    ensures Sigmoids(P6, Rows4(2))
  {
  }

  lemma Sigmoids7()
    ensures Sigmoids(P7, Rows4(3))
  {
  }

  lemma Mirrors0()
    ensures Mirrors(P0, Rows12(3))
  {
  }

  lemma Mirrors1()
    ensures Mirrors(P1, Rows12(2))
  {
  }

  lemma Mirrors2()
    ensures Mirrors(P2, Rows12(1))
  {
  }

  lemma Mirrors3()
    ensures Mirrors(P3, Rows12(0))
  {
  }

  lemma Mirrors4()
    ensures Mirrors(P4, Rows8(3))
  {
  }

  lemma Mirrors5()
    ensures Mirrors(P5, Rows8(2))
  {
  }

  lemma Mirrors6()
    ensures Mirrors(P6, Rows8(1))
  {
  }

  lemma Mirrors7()
    ensures Mirrors(P7, Rows8(0))
  {
  }


  lemma ChainAt(q: nat)
    requires q < 16
    ensures Chain(Powers(q)) && (q < 15 ==> Powers(q)[16] == Powers(q + 1)[0])
  {
    hide Chain;
    if q == 0 { Chain0(); } else if q == 1 { Chain1(); } else if q == 2 { Chain2(); } else if q == 3 { Chain3(); }
    else if q == 4 { Chain4(); } else if q == 5 { Chain5(); } else if q == 6 { Chain6(); }
    else if q == 7 { Chain7(); } else if q == 8 { Chain8(); } else if q == 9 { Chain9(); }
    else if q == 10 { Chain10(); } else if q == 11 { Chain11(); } else if q == 12 { Chain12(); }
    else if q == 13 { Chain13(); } else if q == 14 { Chain14(); } else { Chain15(); }
  }

  lemma ExpsAt(q: nat)
    requires q < 16
    ensures Exps(Powers(q), ExpRow(q))
  {
    hide Exps, ExpRow;
    if q == 0 { Exps0(); } else if q == 1 { Exps1(); } else if q == 2 { Exps2(); } else if q == 3 { Exps3(); }
    else if q == 4 { Exps4(); } else if q == 5 { Exps5(); } else if q == 6 { Exps6(); }
    else if q == 7 { Exps7(); } else if q == 8 { Exps8(); } else if q == 9 { Exps9(); }
    else if q == 10 { Exps10(); } else if q == 11 { Exps11(); } else if q == 12 { Exps12(); }
    else if q == 13 { Exps13(); } else if q == 14 { Exps14(); } else { Exps15(); }
  }

  lemma SigmoidsAt(q: nat)
    requires q < 8
    ensures Sigmoids(Powers(q), if q < 4 then Rows0(q) else Rows4(q - 4))
  {
    hide Sigmoids, Rows0, Rows4;
    if q == 0 { Sigmoids0(); } else if q == 1 { Sigmoids1(); } else if q == 2 { Sigmoids2(); }
    else if q == 3 { Sigmoids3(); } else if q == 4 { Sigmoids4(); } else if q == 5 { Sigmoids5(); }
    else if q == 6 { Sigmoids6(); } else { Sigmoids7(); }
  }

  lemma MirrorsAt(q: nat)
    requires q < 8
    ensures Mirrors(Powers(q), if q < 4 then Rows12(3 - q) else Rows8(7 - q))
  {
    hide Mirrors, Rows8, Rows12;
    if q == 0 { Mirrors0(); } else if q == 1 { Mirrors1(); } else if q == 2 { Mirrors2(); }
    else if q == 3 { Mirrors3(); } else if q == 4 { Mirrors4(); } else if q == 5 { Mirrors5(); }
    else if q == 6 { Mirrors6(); } else { Mirrors7(); }
  }

  lemma Linked(c: seq<nat>, k: nat)
    requires Chain(c) && k < 16
    ensures |c| == 17 && c[k + 1] == Lower(c[k])
  {
    LinkedBy(c, k);
    hide Lowered, Chain;
    LoweredIs(c[k], c[k + 1]);
  }

  lemma LinkedBy(c: seq<nat>, k: nat)
    requires Chain(c) && k < 16
    ensures |c| == 17 && Lowered(c[k], c[k + 1])
  {
    hide Lowered;
    assert Quarter(c, k / 4 * 4);
  }

  lemma LoweredIs(p: nat, p': nat)
    requires Lowered(p, p')
    ensures p' == Lower(p)
  {
    DivMod(p * RATIO, UNIT);
    Digits(UNIT, p', p * RATIO - p' * UNIT, p * RATIO / UNIT, p * RATIO % UNIT);
  }

  lemma {:induction false} PowersAre(q: nat, k: nat)
    requires q < 16 && k <= 16
    ensures |Powers(q)| == 17 && Power(16 * q + k) == Powers(q)[k]
    decreases q, k
  {
    hide Chain, Lower, Powers, Power;
    ChainAt(q);
    ChainLength(Powers(q));
    if k > 0 {
      PowersAre(q, k - 1);
      Linked(Powers(q), k - 1);
      PowerNext(16 * q + k - 1);
    } else if q > 0 {
      PowersAre(q - 1, 16);
      ChainAt(q - 1);
    } else {
      FirstPower();
    }
  }

  lemma ChainLength(c: seq<nat>)
    requires Chain(c)
    ensures |c| == 17
  {
    hide Lower;
  }

  lemma PowerNext(d: nat)
    ensures Power(d + 1) == Lower(Power(d)) && Power(0) == UNIT
  {
    hide Lower;
  }

  lemma FirstPower()
    ensures Powers(0)[0] == UNIT == Power(0)
  {
  }

  lemma ExpAt(c: seq<nat>, r: seq<nat>, k: nat)
    requires Exps(c, r) && k < 16
    ensures |c| == 17 && |r| == 16 && ExpEntry(r[k], c[k])
  {
    hide ExpEntry;
  }

  lemma SigmoidAt(c: seq<nat>, r: seq<int>, k: nat)
    requires Sigmoids(c, r) && k < 16
    ensures |c| == 17 && |r| == 16 && SigmoidEntry(r[k], c[k])
  {
    hide SigmoidEntry;
  }

  lemma MirrorAt(c: seq<nat>, r: seq<int>, k: nat)
    requires Mirrors(c, r) && k < 16
    ensures |c| == 17 && |r| == 16 && MirrorEntry(r[k], c[16 - k])
  {
    hide MirrorEntry;
  }

  // ---------------------------------------------------------------- the tables

  /** exp_lut[d] is 1024 * e^(-d/32), rounded. */
  lemma ExpLutIs(d: nat)
    requires d < 256
    ensures Rounds(ExpLut(d), 1024 * Power(d), UNIT)
  {
    hide Powers, Exps, ExpRow, Power, Rounds;
    var (q, k) := (d / 16, d % 16);
    DivMod(d, 16);
    ExpsAt(q);
    PowersAre(q, k);
    ExpAt(Powers(q), ExpRow(q), k);
  }

  /** sigmoid_lut[i & 0xff] is 255 / (1 + e^(-i/32)) - 128, rounded, for i from 0 to 127. */
  lemma SigmoidLutIs(i: nat)
    requires i < 128
    ensures Rounds(SigmoidLut(i) + 128, 255 * UNIT, UNIT + Power(i))
  {
    hide Powers, Sigmoids, Rows0, Rows4, Power, Rounds;
    var (q, k) := (i / 16, i % 16);
    DivMod(i, 16);
    SigmoidsAt(q);
    PowersAre(q, k);
    SigmoidAt(Powers(q), if q < 4 then Rows0(q) else Rows4(q - 4), k);
  }

  /** And 255 / (1 + e^(i/32)) - 128 for -i from -128 to -1. */
  lemma SigmoidLutMirrored(i: nat)
    requires 0 < i <= 128
    ensures Rounds(SigmoidLut(256 - i) + 128, 255 * Power(i), UNIT + Power(i))
  {
    hide Powers, Mirrors, Rows8, Rows12, Power, Rounds;
    var (q, k) := ((i - 1) / 16, (i - 1) % 16 + 1);
    DivMod(i - 1, 16);
    MirrorPlace(i, q, k);
    MirrorsAt(q);
    PowersAre(q, k);
    MirrorAt(Powers(q), if q < 4 then Rows12(3 - q) else Rows8(7 - q), 16 - k);
  }

  lemma MirrorPlace(i: nat, q: nat, k: nat)
    requires 0 < i <= 128 && q < 8 && 1 <= k <= 16 && i == 16 * q + k
    ensures (256 - i) / 16 == 15 - q && (256 - i) % 16 == 16 - k
  {
  }
}
