/**
 * A hand-derivable regression case for the dither: the 4x4 buffer whose
 * every byte is 255, processed with aberration offset 0.
 */
module DitherGolden {
  import opened DitherSpec

  /** The working values after the first k pixels of the raster pass, exactly (every value is a dyadic rational). */
  function WhiteState(k: nat): (state: seq<real>)
    requires k <= 16
  {
    if k == 0 then [255.0, 255.0, 255.0, 255.0, 255.0, 255.0, 255.0, 255.0, 255.0, 255.0, 255.0, 255.0, 255.0, 255.0, 255.0, 255.0]
    else if k == 1 then [255.0, 366.5625, 255.0, 255.0, 334.6875, 270.9375, 255.0, 255.0, 255.0, 255.0, 255.0, 255.0, 255.0, 255.0, 255.0, 255.0]
    else if k == 2 then [255.0, 366.5625, 303.80859375, 255.0, 355.60546875, 305.80078125, 261.97265625, 255.0, 255.0, 255.0, 255.0, 255.0, 255.0, 255.0, 255.0, 255.0]
    else if k == 3 then [255.0, 366.5625, 303.80859375, 276.353759765625, 355.60546875, 314.952392578125, 277.225341796875, 258.050537109375, 255.0, 255.0, 255.0, 255.0, 255.0, 255.0, 255.0, 255.0]
    else if k == 4 then [255.0, 366.5625, 303.80859375, 276.353759765625, 355.60546875, 314.952392578125, 281.2291717529296875, 264.7235870361328125, 255.0, 255.0, 255.0, 255.0, 255.0, 255.0, 255.0, 255.0]
    else if k == 5 then [255.0, 366.5625, 303.80859375, 276.353759765625, 355.60546875, 358.96728515625, 281.2291717529296875, 264.7235870361328125, 286.439208984375, 261.287841796875, 255.0, 255.0, 255.0, 255.0, 255.0, 255.0]
    else if k == 6 then [255.0, 366.5625, 303.80859375, 276.353759765625, 355.60546875, 358.96728515625, 326.7148590087890625, 264.7235870361328125, 305.933074951171875, 293.777618408203125, 261.497955322265625, 255.0, 255.0, 255.0, 255.0, 255.0]
    else if k == 7 then [255.0, 366.5625, 303.80859375, 276.353759765625, 355.60546875, 358.96728515625, 326.7148590087890625, 296.09883785247802734375, 305.933074951171875, 307.22415447235107421875, 283.90884876251220703125, 259.48217868804931640625, 255.0, 255.0, 255.0, 255.0]
    else if k == 8 then [255.0, 366.5625, 303.80859375, 276.353759765625, 355.60546875, 358.96728515625, 326.7148590087890625, 296.09883785247802734375, 305.933074951171875, 307.22415447235107421875, 291.614880859851837158203125, 272.325565516948699951171875, 255.0, 255.0, 255.0, 255.0]
    else if k == 9 then [255.0, 366.5625, 303.80859375, 276.353759765625, 355.60546875, 358.96728515625, 326.7148590087890625, 296.09883785247802734375, 305.933074951171875, 329.50737476348876953125, 291.614880859851837158203125, 272.325565516948699951171875, 270.9165859222412109375, 258.1833171844482421875, 255.0, 255.0]
    else if k == 10 then [255.0, 366.5625, 303.80859375, 276.353759765625, 355.60546875, 358.96728515625, 326.7148590087890625, 296.09883785247802734375, 305.933074951171875, 329.50737476348876953125, 324.211857318878173828125, 272.325565516948699951171875, 284.886718690395355224609375, 281.466871798038482666015625, 259.656710922718048095703125, 255.0]
    else if k == 11 then [255.0, 366.5625, 303.80859375, 276.353759765625, 355.60546875, 358.96728515625, 326.7148590087890625, 296.09883785247802734375, 305.933074951171875, 329.50737476348876953125, 324.211857318878173828125, 302.6057530939579010009765625, 284.886718690395355224609375, 294.4440950453281402587890625, 281.2854163348674774169921875, 259.3257410824298858642578125]
    else if k == 12 then [255.0, 366.5625, 303.80859375, 276.353759765625, 355.60546875, 358.96728515625, 326.7148590087890625, 296.09883785247802734375, 305.933074951171875, 329.50737476348876953125, 324.211857318878173828125, 302.6057530939579010009765625, 284.886718690395355224609375, 294.4440950453281402587890625, 290.21149503998458385467529296875, 274.20253892429172992706298828125]
    else if k == 13 then [255.0, 366.5625, 303.80859375, 276.353759765625, 355.60546875, 358.96728515625, 326.7148590087890625, 296.09883785247802734375, 305.933074951171875, 329.50737476348876953125, 324.211857318878173828125, 302.6057530939579010009765625, 284.886718690395355224609375, 307.5195344723761081695556640625, 290.21149503998458385467529296875, 274.20253892429172992706298828125]
    else if k == 14 then [255.0, 366.5625, 303.80859375, 276.353759765625, 355.60546875, 358.96728515625, 326.7148590087890625, 296.09883785247802734375, 305.933074951171875, 329.50737476348876953125, 324.211857318878173828125, 302.6057530939579010009765625, 284.886718690395355224609375, 307.5195344723761081695556640625, 313.18879137164913117885589599609375, 274.20253892429172992706298828125]
    else if k == 15 then [255.0, 366.5625, 303.80859375, 276.353759765625, 355.60546875, 358.96728515625, 326.7148590087890625, 296.09883785247802734375, 305.933074951171875, 329.50737476348876953125, 324.211857318878173828125, 302.6057530939579010009765625, 284.886718690395355224609375, 307.5195344723761081695556640625, 313.18879137164913117885589599609375, 299.660135149388224817812442779541015625]
    else [255.0, 366.5625, 303.80859375, 276.353759765625, 355.60546875, 358.96728515625, 326.7148590087890625, 296.09883785247802734375, 305.933074951171875, 329.50737476348876953125, 324.211857318878173828125, 302.6057530939579010009765625, 284.886718690395355224609375, 307.5195344723761081695556640625, 313.18879137164913117885589599609375, 299.660135149388224817812442779541015625]
  }

  /** Visit 0: state 0 becomes state 1. */
  lemma WhiteVisit0()
    ensures DiffuseAt(WhiteState(0), 4, 4, 0) == WhiteState(1)
  {
  }

  /** Visit 1: state 1 becomes state 2. */
  lemma WhiteVisit1()
    ensures DiffuseAt(WhiteState(1), 4, 4, 1) == WhiteState(2)
  {
  }

  /** Visit 2: state 2 becomes state 3. */
  lemma WhiteVisit2()
    ensures DiffuseAt(WhiteState(2), 4, 4, 2) == WhiteState(3)
  {
  }

  /** Visit 3: state 3 becomes state 4. */
  lemma WhiteVisit3()
    ensures DiffuseAt(WhiteState(3), 4, 4, 3) == WhiteState(4)
  {
  }

  /** Visit 4: state 4 becomes state 5. */
  lemma WhiteVisit4()
    ensures DiffuseAt(WhiteState(4), 4, 4, 4) == WhiteState(5)
  {
  }

  /** Visit 5: state 5 becomes state 6. */
  lemma WhiteVisit5()
    ensures DiffuseAt(WhiteState(5), 4, 4, 5) == WhiteState(6)
  {
  }

  /** Visit 6: state 6 becomes state 7. */
  lemma WhiteVisit6()
    ensures DiffuseAt(WhiteState(6), 4, 4, 6) == WhiteState(7)
  {
  }

  /** Visit 7: state 7 becomes state 8. */
  lemma WhiteVisit7()
    ensures DiffuseAt(WhiteState(7), 4, 4, 7) == WhiteState(8)
  {
  }

  /** Visit 8: state 8 becomes state 9. */
  lemma WhiteVisit8()
    ensures DiffuseAt(WhiteState(8), 4, 4, 8) == WhiteState(9)
  {
  }

  /** Visit 9: state 9 becomes state 10. */
  lemma WhiteVisit9()
    ensures DiffuseAt(WhiteState(9), 4, 4, 9) == WhiteState(10)
  {
  }

  /** Visit 10: state 10 becomes state 11. */
  lemma WhiteVisit10()
    ensures DiffuseAt(WhiteState(10), 4, 4, 10) == WhiteState(11)
  {
  }

  /** Visit 11: state 11 becomes state 12. */
  lemma WhiteVisit11()
    ensures DiffuseAt(WhiteState(11), 4, 4, 11) == WhiteState(12)
  {
  }

  /** Visit 12: state 12 becomes state 13. */
  lemma WhiteVisit12()
    ensures DiffuseAt(WhiteState(12), 4, 4, 12) == WhiteState(13)
  {
  }

  /** Visit 13: state 13 becomes state 14. */
  lemma WhiteVisit13()
    ensures DiffuseAt(WhiteState(13), 4, 4, 13) == WhiteState(14)
  {
  }

  /** Visit 14: state 14 becomes state 15. */
  lemma WhiteVisit14()
    ensures DiffuseAt(WhiteState(14), 4, 4, 14) == WhiteState(15)
  {
  }

  /** Visit 15: state 15 becomes state 16. */
  lemma WhiteVisit15()
    ensures DiffuseAt(WhiteState(15), 4, 4, 15) == WhiteState(16)
  {
  }

  /** Visiting pixel k turns state k into state k + 1. */
  lemma WhiteVisit(k: nat)
    requires k < 16
    ensures DiffuseAt(WhiteState(k), 4, 4, k) == WhiteState(k + 1)
  {
    if k == 0 {
      WhiteVisit0();
    } else if k == 1 {
      WhiteVisit1();
    } else if k == 2 {
      WhiteVisit2();
    } else if k == 3 {
      WhiteVisit3();
    } else if k == 4 {
      WhiteVisit4();
    } else if k == 5 {
      WhiteVisit5();
    } else if k == 6 {
      WhiteVisit6();
    } else if k == 7 {
      WhiteVisit7();
    } else if k == 8 {
      WhiteVisit8();
    } else if k == 9 {
      WhiteVisit9();
    } else if k == 10 {
      WhiteVisit10();
    } else if k == 11 {
      WhiteVisit11();
    } else if k == 12 {
      WhiteVisit12();
    } else if k == 13 {
      WhiteVisit13();
    } else if k == 14 {
      WhiteVisit14();
    } else {
      WhiteVisit15();
    }
  }

  /** Pixel 0 sits at 255 (below 256) when visited; every later pixel has been pushed past 256. */
  lemma WhiteQuantized(i: nat)
    requires i < 16
    ensures Quantize(WhiteState(i)[i]) == if i == 0 then 0 else 255
  {
  }

  /** The raster pass over the all-white luminance runs through exactly these states. */
  lemma {:induction false} WhiteDiffused(k: nat)
    requires k <= 16
    ensures Diffused(seq(16, _ => 255.0), 4, 4, k) == WhiteState(k)
  {
    if k == 0 {
      assert seq(16, _ => 255.0) == WhiteState(0);
    } else {
      WhiteDiffused(k - 1);
      WhiteVisit(k - 1);
    }
  }

  /** The raw 4x4 buffer with every byte 255. */
  function WhiteImage(): (p: seq<byte>)
    ensures |p| == 64
  {
    seq(64, _ => 255)
  }

  /** Every pixel of the white buffer has luminance 255. */
  lemma WhiteLuminance()
    ensures Luminance(WhiteImage(), 16) == seq(16, _ => 255.0)
  {
    var lum := Luminance(WhiteImage(), 16);
    forall i | 0 <= i < 16
      ensures lum[i] == 255.0
    {
      assert LumOf(WhiteImage(), i) == 255.0;
    }
  }

  /** Only the first pixel quantises to 0. */
  lemma WhiteLevels()
    ensures Levels(seq(16, _ => 255.0), 4, 4) == [0] + seq(15, _ => 255)
  {
    var lv := Levels(seq(16, _ => 255.0), 4, 4);
    var expected: seq<byte> := [0] + seq(15, _ => 255);
    forall i | 0 <= i < 16
      ensures lv[i] == expected[i]
    {
      WhiteDiffused(i);
      WhiteQuantized(i);
    }
  }

  /**
   * Golden output: from the all-white 4x4 buffer with offset 0 only the first
   * pixel comes out black (255 < 256, and all its error moves on); every
   * later pixel has received error, quantises to 255 and copies the input.
   */
  lemma AllWhiteGolden()
    ensures Levels(Luminance(WhiteImage(), 16), 4, 4) == [0] + seq(15, _ => 255)
    ensures Composed(WhiteImage(), 4, 4, Levels(Luminance(WhiteImage(), 16), 4, 4), 0)
      == [0, 0, 0, 255] + seq(60, _ => 255)
  {
    WhiteLuminance();
    WhiteLevels();
    var lv: seq<byte> := [0] + seq(15, _ => 255);
    var out := Composed(WhiteImage(), 4, 4, lv, 0);
    var golden: seq<byte> := [0, 0, 0, 255] + seq(60, _ => 255);
    forall k | 0 <= k < 64
      ensures out[k] == golden[k]
    {
      if k / 4 != 0 {
        ZeroOffsetCopies(WhiteImage(), 4, 4, k / 4, lv[k / 4]);
      }
    }
  }
}
