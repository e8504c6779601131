/** The gamma-correction table of the HUB75 driver: 256 entries that map a
    linear channel value to the value whose bit-planes are shown on the
    panel (c3_display/src/hub75dma.rs, lines 99-112). */
module Hub75Gamma {
  import opened Graphics

  /** The table, sixteen entries per row. */
  const Row0: seq<u8> := [0, 0, 0, 0, 0, 0, 0, 0, 0, 0, 0, 0, 0, 0, 0, 0]
  const Row1: seq<u8> := [0, 0, 0, 0, 0, 0, 0, 0, 0, 0, 0, 0, 1, 1, 1, 1]
  const Row2: seq<u8> := [1, 1, 1, 1, 1, 1, 1, 1, 1, 2, 2, 2, 2, 2, 2, 2]
  const Row3: seq<u8> := [2, 3, 3, 3, 3, 3, 3, 3, 4, 4, 4, 4, 4, 5, 5, 5]
  const Row4: seq<u8> := [5, 6, 6, 6, 6, 7, 7, 7, 7, 8, 8, 8, 9, 9, 9, 10]
  const Row5: seq<u8> := [10, 10, 11, 11, 11, 12, 12, 13, 13, 13, 14, 14, 15, 15, 16, 16]
  const Row6: seq<u8> := [17, 17, 18, 18, 19, 19, 20, 20, 21, 21, 22, 22, 23, 24, 24, 25]
  const Row7: seq<u8> := [25, 26, 27, 27, 28, 29, 29, 30, 31, 32, 32, 33, 34, 35, 35, 36]
  const Row8: seq<u8> := [37, 38, 39, 39, 40, 41, 42, 43, 44, 45, 46, 47, 48, 49, 50, 50]
  const Row9: seq<u8> := [51, 52, 54, 55, 56, 57, 58, 59, 60, 61, 62, 63, 64, 66, 67, 68]
  const Row10: seq<u8> := [69, 70, 72, 73, 74, 75, 77, 78, 79, 81, 82, 83, 85, 86, 87, 89]
  const Row11: seq<u8> := [90, 92, 93, 95, 96, 98, 99, 101, 102, 104, 105, 107, 109, 110, 112, 114]
  const Row12: seq<u8> := [115, 117, 119, 120, 122, 124, 126, 127, 129, 131, 133, 135, 137, 138, 140, 142]
  const Row13: seq<u8> := [144, 146, 148, 150, 152, 154, 156, 158, 160, 162, 164, 167, 169, 171, 173, 175]
  const Row14: seq<u8> := [177, 180, 182, 184, 186, 189, 191, 193, 196, 198, 200, 203, 205, 208, 210, 213]
  const Row15: seq<u8> := [215, 218, 220, 223, 225, 228, 231, 233, 236, 239, 241, 244, 247, 249, 252, 255]

  const GAMMA8: seq<u8> := Row0 + Row1 + Row2 + Row3 + Row4 + Row5 + Row6 + Row7 + Row8 + Row9 + Row10 + Row11 + Row12 + Row13 + Row14 + Row15

  /** Neighbouring entries never decrease. */
  ghost predicate Adjacent(s: seq<u8>)
  {
    forall i :: 0 <= i < |s| - 1 ==> s[i] <= s[i + 1]
  }

  /** Two non-decreasing runs whose junction does not drop form one
      non-decreasing run. */
  lemma ConcatAdjacent(s: seq<u8>, t: seq<u8>)
    requires Adjacent(s) && Adjacent(t) && |s| > 0 && |t| > 0 && s[|s| - 1] <= t[0]
    ensures Adjacent(s + t)
  {
    forall i | 0 <= i < |s + t| - 1
      ensures (s + t)[i] <= (s + t)[i + 1]
    {
      if i == |s| - 1 {
        assert (s + t)[i + 1] == t[0];
      }
    }
  }

  /** Every entry of a row that starts at table index `offset` is at most
      its own index. */
  ghost predicate Dimming(s: seq<u8>, offset: nat)
  {
    forall i :: 0 <= i < |s| ==> s[i] as nat <= offset + i
  }

  lemma Rows0And1()
    ensures Adjacent(Row0) && Adjacent(Row1)
    ensures |Row0| == 16 && |Row1| == 16
    ensures Dimming(Row0, 0) && Dimming(Row1, 16)
  {
  }

  lemma Rows2And3()
    ensures Adjacent(Row2) && Adjacent(Row3)
    ensures |Row2| == 16 && |Row3| == 16
    ensures Dimming(Row2, 32) && Dimming(Row3, 48)
  {
  }

  lemma Rows4And5()
    ensures Adjacent(Row4) && Adjacent(Row5)
    ensures |Row4| == 16 && |Row5| == 16
    ensures Dimming(Row4, 64) && Dimming(Row5, 80)
  {
  }

  lemma Rows6And7()
    ensures Adjacent(Row6) && Adjacent(Row7)
    ensures |Row6| == 16 && |Row7| == 16
    ensures Dimming(Row6, 96) && Dimming(Row7, 112)
  {
  }

  lemma Rows8And9()
    ensures Adjacent(Row8) && Adjacent(Row9)
    ensures |Row8| == 16 && |Row9| == 16
    ensures Dimming(Row8, 128) && Dimming(Row9, 144)
  {
  }

  lemma Rows10And11()
    ensures Adjacent(Row10) && Adjacent(Row11)
    ensures |Row10| == 16 && |Row11| == 16
    ensures Dimming(Row10, 160) && Dimming(Row11, 176)
  {
  }

  lemma Rows12And13()
    ensures Adjacent(Row12) && Adjacent(Row13)
    ensures |Row12| == 16 && |Row13| == 16
    ensures Dimming(Row12, 192) && Dimming(Row13, 208)
  {
  }

  lemma Rows14And15()
    ensures Adjacent(Row14) && Adjacent(Row15)
    ensures |Row14| == 16 && |Row15| == 16
    ensures Dimming(Row14, 224) && Dimming(Row15, 240)
  {
  }

  /** Joining a dimming run to a dimming run that starts right after it. */
  lemma ConcatDimming(s: seq<u8>, t: seq<u8>, offset: nat)
    requires Dimming(s, offset) && Dimming(t, offset + |s|)
    ensures Dimming(s + t, offset)
  {
    forall i | 0 <= i < |s + t|
      ensures (s + t)[i] as nat <= offset + i
    {
      if i >= |s| {
        assert (s + t)[i] == t[i - |s|];
      }
    }
  }

  lemma GammaAdjacent()
    ensures Adjacent(GAMMA8)
  {
    Rows0And1();
    Rows2And3();
    Rows4And5();
    Rows6And7();
    Rows8And9();
    Rows10And11();
    Rows12And13();
    Rows14And15();
    ConcatAdjacent(Row0, Row1);
    ConcatAdjacent(Row0 + Row1, Row2);
    ConcatAdjacent(Row0 + Row1 + Row2, Row3);
    ConcatAdjacent(Row0 + Row1 + Row2 + Row3, Row4);
    ConcatAdjacent(Row0 + Row1 + Row2 + Row3 + Row4, Row5);
    ConcatAdjacent(Row0 + Row1 + Row2 + Row3 + Row4 + Row5, Row6);
    ConcatAdjacent(Row0 + Row1 + Row2 + Row3 + Row4 + Row5 + Row6, Row7);
    ConcatAdjacent(Row0 + Row1 + Row2 + Row3 + Row4 + Row5 + Row6 + Row7, Row8);
    ConcatAdjacent(Row0 + Row1 + Row2 + Row3 + Row4 + Row5 + Row6 + Row7 + Row8, Row9);
    ConcatAdjacent(Row0 + Row1 + Row2 + Row3 + Row4 + Row5 + Row6 + Row7 + Row8 + Row9, Row10);
    ConcatAdjacent(Row0 + Row1 + Row2 + Row3 + Row4 + Row5 + Row6 + Row7 + Row8 + Row9 + Row10, Row11);
    ConcatAdjacent(Row0 + Row1 + Row2 + Row3 + Row4 + Row5 + Row6 + Row7 + Row8 + Row9 + Row10 + Row11, Row12);
    ConcatAdjacent(Row0 + Row1 + Row2 + Row3 + Row4 + Row5 + Row6 + Row7 + Row8 + Row9 + Row10 + Row11 + Row12, Row13);
    ConcatAdjacent(Row0 + Row1 + Row2 + Row3 + Row4 + Row5 + Row6 + Row7 + Row8 + Row9 + Row10 + Row11 + Row12 + Row13, Row14);
    ConcatAdjacent(Row0 + Row1 + Row2 + Row3 + Row4 + Row5 + Row6 + Row7 + Row8 + Row9 + Row10 + Row11 + Row12 + Row13 + Row14, Row15);
  }

  lemma GammaDimming()
    ensures Dimming(GAMMA8, 0)
  {
    Rows0And1();
    Rows2And3();
    Rows4And5();
    Rows6And7();
    Rows8And9();
    Rows10And11();
    Rows12And13();
    Rows14And15();
    ConcatDimming(Row0, Row1, 0);
    ConcatDimming(Row0 + Row1, Row2, 0);
    ConcatDimming(Row0 + Row1 + Row2, Row3, 0);
    ConcatDimming(Row0 + Row1 + Row2 + Row3, Row4, 0);
    ConcatDimming(Row0 + Row1 + Row2 + Row3 + Row4, Row5, 0);
    ConcatDimming(Row0 + Row1 + Row2 + Row3 + Row4 + Row5, Row6, 0);
    ConcatDimming(Row0 + Row1 + Row2 + Row3 + Row4 + Row5 + Row6, Row7, 0);
    ConcatDimming(Row0 + Row1 + Row2 + Row3 + Row4 + Row5 + Row6 + Row7, Row8, 0);
    ConcatDimming(Row0 + Row1 + Row2 + Row3 + Row4 + Row5 + Row6 + Row7 + Row8, Row9, 0);
    ConcatDimming(Row0 + Row1 + Row2 + Row3 + Row4 + Row5 + Row6 + Row7 + Row8 + Row9, Row10, 0);
    ConcatDimming(Row0 + Row1 + Row2 + Row3 + Row4 + Row5 + Row6 + Row7 + Row8 + Row9 + Row10, Row11, 0);
    ConcatDimming(Row0 + Row1 + Row2 + Row3 + Row4 + Row5 + Row6 + Row7 + Row8 + Row9 + Row10 + Row11, Row12, 0);
    ConcatDimming(Row0 + Row1 + Row2 + Row3 + Row4 + Row5 + Row6 + Row7 + Row8 + Row9 + Row10 + Row11 + Row12, Row13, 0);
    ConcatDimming(Row0 + Row1 + Row2 + Row3 + Row4 + Row5 + Row6 + Row7 + Row8 + Row9 + Row10 + Row11 + Row12 + Row13, Row14, 0);
    ConcatDimming(Row0 + Row1 + Row2 + Row3 + Row4 + Row5 + Row6 + Row7 + Row8 + Row9 + Row10 + Row11 + Row12 + Row13 + Row14, Row15, 0);
  }

  /** The table has 256 entries, starts at 0, ends at 255, every entry is at
      most the one after it, and no entry exceeds its own index. */
  lemma GammaShape()
    ensures |GAMMA8| == 256
    ensures GAMMA8[0] == 0 && GAMMA8[255] == 255
    ensures Adjacent(GAMMA8)
    ensures Dimming(GAMMA8, 0)
  {
    GammaAdjacent();
    GammaDimming();
  }

  /** Adjacent steps compose: any later entry is at least any earlier one. */
  lemma {:induction false} AdjacentOrdered(s: seq<u8>, i: nat, j: nat)
    requires Adjacent(s) && i <= j < |s|
    ensures s[i] <= s[j]
    decreases j - i
  {
    if i < j {
      AdjacentOrdered(s, i, j - 1);
    }
  }

  /** The table lookup `GAMMA8[c as usize]`; every byte indexes the table. */
  function Gamma(c: u8): (g: u8)
    ensures c == 0 ==> g == 0
    ensures c == 255 ==> g == 255
    ensures g <= c
  {
    GammaShape();
    GAMMA8[c]
  }

  /** Gamma correction preserves the order of channel values. */
  lemma GammaMonotone(c: u8, d: u8)
    requires c <= d
    ensures Gamma(c) <= Gamma(d)
  {
    GammaShape();
    AdjacentOrdered(GAMMA8, c as nat, d as nat);
  }
}
