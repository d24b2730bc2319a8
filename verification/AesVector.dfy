// The example of FIPS 197, Appendix C.1, carried through key expansion and encryption.
module AesVector {
  import opened Wrappers
  import opened AesTables
  import opened MixColumns
  import opened Aes

  const KEY: seq<bv8> := [0x00, 0x01, 0x02, 0x03, 0x04, 0x05, 0x06, 0x07, 0x08, 0x09, 0x0A, 0x0B, 0x0C, 0x0D, 0x0E, 0x0F]
  const PLAIN: seq<bv8> := [0x00, 0x11, 0x22, 0x33, 0x44, 0x55, 0x66, 0x77, 0x88, 0x99, 0xAA, 0xBB, 0xCC, 0xDD, 0xEE, 0xFF]
  const CIPHER: seq<bv8> := [0x69, 0xC4, 0xE0, 0xD8, 0x6A, 0x7B, 0x04, 0x30, 0xD8, 0xCD, 0xB7, 0x80, 0x70, 0xB4, 0xC5, 0x5A]

  // The words of the expanded key that belong to each round.
  function Words(r: nat): (ws: seq<Word>)
    ensures |ws| == 4 && forall c :: 0 <= c < 4 ==> |ws[c]| == 4
  {
    match r
    case 0 => [[0x00, 0x01, 0x02, 0x03], [0x04, 0x05, 0x06, 0x07], [0x08, 0x09, 0x0A, 0x0B], [0x0C, 0x0D, 0x0E, 0x0F]]
    case 1 => [[0xD6, 0xAA, 0x74, 0xFD], [0xD2, 0xAF, 0x72, 0xFA], [0xDA, 0xA6, 0x78, 0xF1], [0xD6, 0xAB, 0x76, 0xFE]]
    case 2 => [[0xB6, 0x92, 0xCF, 0x0B], [0x64, 0x3D, 0xBD, 0xF1], [0xBE, 0x9B, 0xC5, 0x00], [0x68, 0x30, 0xB3, 0xFE]]
    case 3 => [[0xB6, 0xFF, 0x74, 0x4E], [0xD2, 0xC2, 0xC9, 0xBF], [0x6C, 0x59, 0x0C, 0xBF], [0x04, 0x69, 0xBF, 0x41]]
    case 4 => [[0x47, 0xF7, 0xF7, 0xBC], [0x95, 0x35, 0x3E, 0x03], [0xF9, 0x6C, 0x32, 0xBC], [0xFD, 0x05, 0x8D, 0xFD]]
    case 5 => [[0x3C, 0xAA, 0xA3, 0xE8], [0xA9, 0x9F, 0x9D, 0xEB], [0x50, 0xF3, 0xAF, 0x57], [0xAD, 0xF6, 0x22, 0xAA]]
    case 6 => [[0x5E, 0x39, 0x0F, 0x7D], [0xF7, 0xA6, 0x92, 0x96], [0xA7, 0x55, 0x3D, 0xC1], [0x0A, 0xA3, 0x1F, 0x6B]]
    case 7 => [[0x14, 0xF9, 0x70, 0x1A], [0xE3, 0x5F, 0xE2, 0x8C], [0x44, 0x0A, 0xDF, 0x4D], [0x4E, 0xA9, 0xC0, 0x26]]
    case 8 => [[0x47, 0x43, 0x87, 0x35], [0xA4, 0x1C, 0x65, 0xB9], [0xE0, 0x16, 0xBA, 0xF4], [0xAE, 0xBF, 0x7A, 0xD2]]
    case 9 => [[0x54, 0x99, 0x32, 0xD1], [0xF0, 0x85, 0x57, 0x68], [0x10, 0x93, 0xED, 0x9C], [0xBE, 0x2C, 0x97, 0x4E]]
    case _ => [[0x13, 0x11, 0x1D, 0x7F], [0xE3, 0x94, 0x4A, 0x17], [0xF3, 0x07, 0xA7, 0x8B], [0x4D, 0x2B, 0x30, 0xC5]]
  }

  // The columns of the state after each round.
  function Columns(r: nat): (cols: seq<Column>)
    ensures |cols| == 4 && forall c :: 0 <= c < 4 ==> |cols[c]| == 4
  {
    match r
    case 0 => [[0x00, 0x10, 0x20, 0x30], [0x40, 0x50, 0x60, 0x70], [0x80, 0x90, 0xA0, 0xB0], [0xC0, 0xD0, 0xE0, 0xF0]]
    case 1 => [[0x89, 0xD8, 0x10, 0xE8], [0x85, 0x5A, 0xCE, 0x68], [0x2D, 0x18, 0x43, 0xD8], [0xCB, 0x12, 0x8F, 0xE4]]
    case 2 => [[0x49, 0x15, 0x59, 0x8F], [0x55, 0xE5, 0xD7, 0xA0], [0xDA, 0xCA, 0x94, 0xFA], [0x1F, 0x0A, 0x63, 0xF7]]
    case 3 => [[0xFA, 0x63, 0x6A, 0x28], [0x25, 0xB3, 0x39, 0xC9], [0x40, 0x66, 0x8A, 0x31], [0x57, 0x24, 0x4D, 0x17]]
    case 4 => [[0x24, 0x72, 0x40, 0x23], [0x69, 0x66, 0xB3, 0xFA], [0x6E, 0xD2, 0x75, 0x32], [0x88, 0x42, 0x5B, 0x6C]]
    case 5 => [[0xC8, 0x16, 0x77, 0xBC], [0x9B, 0x7A, 0xC9, 0x3B], [0x25, 0x02, 0x79, 0x92], [0xB0, 0x26, 0x19, 0x96]]
    case 6 => [[0xC6, 0x2F, 0xE1, 0x09], [0xF7, 0x5E, 0xED, 0xC3], [0xCC, 0x79, 0x39, 0x5D], [0x84, 0xF9, 0xCF, 0x5D]]
    case 7 => [[0xD1, 0x87, 0x6C, 0x0F], [0x79, 0xC4, 0x30, 0x0A], [0xB4, 0x55, 0x94, 0xAD], [0xD6, 0x6F, 0xF4, 0x1F]]
    case 8 => [[0xFD, 0xE3, 0xBA, 0xD2], [0x05, 0xE5, 0xD0, 0xD7], [0x35, 0x47, 0x96, 0x4E], [0xF1, 0xFE, 0x37, 0xF1]]
    case 9 => [[0xBD, 0x6E, 0x7C, 0x3D], [0xF2, 0xB5, 0x77, 0x9E], [0x0B, 0x61, 0x21, 0x6E], [0x8B, 0x10, 0xB6, 0x89]]
    case _ => [[0x69, 0xC4, 0xE0, 0xD8], [0x6A, 0x7B, 0x04, 0x30], [0xD8, 0xCD, 0xB7, 0x80], [0x70, 0xB4, 0xC5, 0x5A]]
  }

  // ----- the sums themselves -----

  lemma FirstSubstituted()
    ensures Sub(0x0C) == 0xFE && Sub(0x0D) == 0xD7 && Sub(0x0E) == 0xAB && Sub(0x0F) == 0x76
    ensures Sub(0xD6) == 0xF6 && Sub(0xAB) == 0x62 && Sub(0x76) == 0x38 && Sub(0xFE) == 0xBB
    ensures Sub(0x68) == 0x45 && Sub(0x30) == 0x04 && Sub(0xB3) == 0x6D && Sub(0xFE) == 0xBB
  {
    hide Sub;
    SubAt(0x0C, 0, 12); SubAt(0x0D, 0, 13); SubAt(0x0E, 0, 14); SubAt(0x0F, 0, 15);
    SubAt(0xD6, 13, 6); SubAt(0xAB, 10, 11); SubAt(0x76, 7, 6); SubAt(0xFE, 15, 14);
    SubAt(0x68, 6, 8); SubAt(0x30, 3, 0); SubAt(0xB3, 11, 3); SubAt(0xFE, 15, 14);
  }

  lemma FirstIncrements()
    ensures Increment([0x0C, 0x0D, 0x0E, 0x0F], 4) == [0xD6, 0xAB, 0x76, 0xFE]
    ensures Increment([0xD6, 0xAB, 0x76, 0xFE], 8) == [0x60, 0x38, 0xBB, 0xF6]
    ensures Increment([0x68, 0x30, 0xB3, 0xFE], 12) == [0x00, 0x6D, 0xBB, 0x45]
  {
    hide Sub;
    FirstSubstituted();
  }

  lemma MiddleSubstituted()
    ensures Sub(0x04) == 0xF2 && Sub(0x69) == 0xF9 && Sub(0xBF) == 0x08 && Sub(0x41) == 0x83
    ensures Sub(0xFD) == 0x54 && Sub(0x05) == 0x6B && Sub(0x8D) == 0x5D && Sub(0xFD) == 0x54
    ensures Sub(0xAD) == 0x95 && Sub(0xF6) == 0x42 && Sub(0x22) == 0x93 && Sub(0xAA) == 0xAC
  {
    hide Sub;
    SubAt(0x04, 0, 4); SubAt(0x69, 6, 9); SubAt(0xBF, 11, 15); SubAt(0x41, 4, 1);
    SubAt(0xFD, 15, 13); SubAt(0x05, 0, 5); SubAt(0x8D, 8, 13); SubAt(0xFD, 15, 13);
    SubAt(0xAD, 10, 13); SubAt(0xF6, 15, 6); SubAt(0x22, 2, 2); SubAt(0xAA, 10, 10);
  }

  lemma MiddleIncrements()
    ensures Increment([0x04, 0x69, 0xBF, 0x41], 16) == [0xF1, 0x08, 0x83, 0xF2]
    ensures Increment([0xFD, 0x05, 0x8D, 0xFD], 20) == [0x7B, 0x5D, 0x54, 0x54]
    ensures Increment([0xAD, 0xF6, 0x22, 0xAA], 24) == [0x62, 0x93, 0xAC, 0x95]
  {
    hide Sub;
    MiddleSubstituted();
  }

  lemma LastSubstituted()
    ensures Sub(0x0A) == 0x67 && Sub(0xA3) == 0x0A && Sub(0x1F) == 0xC0 && Sub(0x6B) == 0x7F
    ensures Sub(0x4E) == 0x2F && Sub(0xA9) == 0xD3 && Sub(0xC0) == 0xBA && Sub(0x26) == 0xF7
    ensures Sub(0xAE) == 0xE4 && Sub(0xBF) == 0x08 && Sub(0x7A) == 0xDA && Sub(0xD2) == 0xB5
    ensures Sub(0xBE) == 0xAE && Sub(0x2C) == 0x71 && Sub(0x97) == 0x88 && Sub(0x4E) == 0x2F
  {
    hide Sub;
    SubAt(0x0A, 0, 10); SubAt(0xA3, 10, 3); SubAt(0x1F, 1, 15); SubAt(0x6B, 6, 11);
    SubAt(0x4E, 4, 14); SubAt(0xA9, 10, 9); SubAt(0xC0, 12, 0); SubAt(0x26, 2, 6);
    SubAt(0xAE, 10, 14); SubAt(0xBF, 11, 15); SubAt(0x7A, 7, 10); SubAt(0xD2, 13, 2);
    SubAt(0xBE, 11, 14); SubAt(0x2C, 2, 12); SubAt(0x97, 9, 7); SubAt(0x4E, 4, 14);
  }

  lemma LastIncrements()
    ensures Increment([0x0A, 0xA3, 0x1F, 0x6B], 28) == [0x4A, 0xC0, 0x7F, 0x67]
    ensures Increment([0x4E, 0xA9, 0xC0, 0x26], 32) == [0x53, 0xBA, 0xF7, 0x2F]
    ensures Increment([0xAE, 0xBF, 0x7A, 0xD2], 36) == [0x13, 0xDA, 0xB5, 0xE4]
    ensures Increment([0xBE, 0x2C, 0x97, 0x4E], 40) == [0x47, 0x88, 0x2F, 0xAE]
  {
    hide Sub;
    LastSubstituted();
  }

  lemma Substituted1()
    ensures Sub(0x00) == 0x63 && Sub(0x50) == 0x53 && Sub(0xA0) == 0xE0 && Sub(0xF0) == 0x8C
    ensures Sub(0x40) == 0x09 && Sub(0x90) == 0x60 && Sub(0xE0) == 0xE1 && Sub(0x30) == 0x04
    ensures Sub(0x80) == 0xCD && Sub(0xD0) == 0x70 && Sub(0x20) == 0xB7 && Sub(0x70) == 0x51
    ensures Sub(0xC0) == 0xBA && Sub(0x10) == 0xCA && Sub(0x60) == 0xD0 && Sub(0xB0) == 0xE7
  {
    hide Sub;
    SubAt(0x00, 0, 0); SubAt(0x50, 5, 0); SubAt(0xA0, 10, 0); SubAt(0xF0, 15, 0);
    SubAt(0x40, 4, 0); SubAt(0x90, 9, 0); SubAt(0xE0, 14, 0); SubAt(0x30, 3, 0);
    SubAt(0x80, 8, 0); SubAt(0xD0, 13, 0); SubAt(0x20, 2, 0); SubAt(0x70, 7, 0);
    SubAt(0xC0, 12, 0); SubAt(0x10, 1, 0); SubAt(0x60, 6, 0); SubAt(0xB0, 11, 0);
  }

  lemma Mixed1()
    ensures Plus(MixSingleColumn([0x63, 0x53, 0xE0, 0x8C]), [0xD6, 0xAA, 0x74, 0xFD]) == [0x89, 0xD8, 0x10, 0xE8]
    ensures Plus(MixSingleColumn([0x09, 0x60, 0xE1, 0x04]), [0xD2, 0xAF, 0x72, 0xFA]) == [0x85, 0x5A, 0xCE, 0x68]
    ensures Plus(MixSingleColumn([0xCD, 0x70, 0xB7, 0x51]), [0xDA, 0xA6, 0x78, 0xF1]) == [0x2D, 0x18, 0x43, 0xD8]
    ensures Plus(MixSingleColumn([0xBA, 0xCA, 0xD0, 0xE7]), [0xD6, 0xAB, 0x76, 0xFE]) == [0xCB, 0x12, 0x8F, 0xE4]
  {
  }

  lemma Substituted2()
    ensures Sub(0x89) == 0xA7 && Sub(0x5A) == 0xBE && Sub(0x43) == 0x1A && Sub(0xE4) == 0x69
    ensures Sub(0x85) == 0x97 && Sub(0x18) == 0xAD && Sub(0x8F) == 0x73 && Sub(0xE8) == 0x9B
    ensures Sub(0x2D) == 0xD8 && Sub(0x12) == 0xC9 && Sub(0x10) == 0xCA && Sub(0x68) == 0x45
    ensures Sub(0xCB) == 0x1F && Sub(0xD8) == 0x61 && Sub(0xCE) == 0x8B && Sub(0xD8) == 0x61
  {
    hide Sub;
    SubAt(0x89, 8, 9); SubAt(0x5A, 5, 10); SubAt(0x43, 4, 3); SubAt(0xE4, 14, 4);
    SubAt(0x85, 8, 5); SubAt(0x18, 1, 8); SubAt(0x8F, 8, 15); SubAt(0xE8, 14, 8);
    SubAt(0x2D, 2, 13); SubAt(0x12, 1, 2); SubAt(0x10, 1, 0); SubAt(0x68, 6, 8);
    SubAt(0xCB, 12, 11); SubAt(0xD8, 13, 8); SubAt(0xCE, 12, 14); SubAt(0xD8, 13, 8);
  }

  lemma Mixed2()
    ensures Plus(MixSingleColumn([0xA7, 0xBE, 0x1A, 0x69]), [0xB6, 0x92, 0xCF, 0x0B]) == [0x49, 0x15, 0x59, 0x8F]
    ensures Plus(MixSingleColumn([0x97, 0xAD, 0x73, 0x9B]), [0x64, 0x3D, 0xBD, 0xF1]) == [0x55, 0xE5, 0xD7, 0xA0]
    ensures Plus(MixSingleColumn([0xD8, 0xC9, 0xCA, 0x45]), [0xBE, 0x9B, 0xC5, 0x00]) == [0xDA, 0xCA, 0x94, 0xFA]
    ensures Plus(MixSingleColumn([0x1F, 0x61, 0x8B, 0x61]), [0x68, 0x30, 0xB3, 0xFE]) == [0x1F, 0x0A, 0x63, 0xF7]
  {
  }

  lemma Substituted3()
    ensures Sub(0x49) == 0x3B && Sub(0xE5) == 0xD9 && Sub(0x94) == 0x22 && Sub(0xF7) == 0x68
    ensures Sub(0x55) == 0xFC && Sub(0xCA) == 0x74 && Sub(0x63) == 0xFB && Sub(0x8F) == 0x73
    ensures Sub(0xDA) == 0x57 && Sub(0x0A) == 0x67 && Sub(0x59) == 0xCB && Sub(0xA0) == 0xE0
    ensures Sub(0x1F) == 0xC0 && Sub(0x15) == 0x59 && Sub(0xD7) == 0x0E && Sub(0xFA) == 0x2D
  {
    hide Sub;
    SubAt(0x49, 4, 9); SubAt(0xE5, 14, 5); SubAt(0x94, 9, 4); SubAt(0xF7, 15, 7);
    SubAt(0x55, 5, 5); SubAt(0xCA, 12, 10); SubAt(0x63, 6, 3); SubAt(0x8F, 8, 15);
    SubAt(0xDA, 13, 10); SubAt(0x0A, 0, 10); SubAt(0x59, 5, 9); SubAt(0xA0, 10, 0);
    SubAt(0x1F, 1, 15); SubAt(0x15, 1, 5); SubAt(0xD7, 13, 7); SubAt(0xFA, 15, 10);
  }

  lemma Mixed3()
    ensures Plus(MixSingleColumn([0x3B, 0xD9, 0x22, 0x68]), [0xB6, 0xFF, 0x74, 0x4E]) == [0xFA, 0x63, 0x6A, 0x28]
    ensures Plus(MixSingleColumn([0xFC, 0x74, 0xFB, 0x73]), [0xD2, 0xC2, 0xC9, 0xBF]) == [0x25, 0xB3, 0x39, 0xC9]
    ensures Plus(MixSingleColumn([0x57, 0x67, 0xCB, 0xE0]), [0x6C, 0x59, 0x0C, 0xBF]) == [0x40, 0x66, 0x8A, 0x31]
    ensures Plus(MixSingleColumn([0xC0, 0x59, 0x0E, 0x2D]), [0x04, 0x69, 0xBF, 0x41]) == [0x57, 0x24, 0x4D, 0x17]
  {
  }

  lemma Substituted4()
    ensures Sub(0xFA) == 0x2D && Sub(0xB3) == 0x6D && Sub(0x8A) == 0x7E && Sub(0x17) == 0xF0
    ensures Sub(0x25) == 0x3F && Sub(0x66) == 0x33 && Sub(0x4D) == 0xE3 && Sub(0x28) == 0x34
    ensures Sub(0x40) == 0x09 && Sub(0x24) == 0x36 && Sub(0x6A) == 0x02 && Sub(0xC9) == 0xDD
    ensures Sub(0x57) == 0x5B && Sub(0x63) == 0xFB && Sub(0x39) == 0x12 && Sub(0x31) == 0xC7
  {
    hide Sub;
    SubAt(0xFA, 15, 10); SubAt(0xB3, 11, 3); SubAt(0x8A, 8, 10); SubAt(0x17, 1, 7);
    SubAt(0x25, 2, 5); SubAt(0x66, 6, 6); SubAt(0x4D, 4, 13); SubAt(0x28, 2, 8);
    SubAt(0x40, 4, 0); SubAt(0x24, 2, 4); SubAt(0x6A, 6, 10); SubAt(0xC9, 12, 9);
    SubAt(0x57, 5, 7); SubAt(0x63, 6, 3); SubAt(0x39, 3, 9); SubAt(0x31, 3, 1);
  }

  lemma Mixed4()
    ensures Plus(MixSingleColumn([0x2D, 0x6D, 0x7E, 0xF0]), [0x47, 0xF7, 0xF7, 0xBC]) == [0x24, 0x72, 0x40, 0x23]
    ensures Plus(MixSingleColumn([0x3F, 0x33, 0xE3, 0x34]), [0x95, 0x35, 0x3E, 0x03]) == [0x69, 0x66, 0xB3, 0xFA]
    ensures Plus(MixSingleColumn([0x09, 0x36, 0x02, 0xDD]), [0xF9, 0x6C, 0x32, 0xBC]) == [0x6E, 0xD2, 0x75, 0x32]
    ensures Plus(MixSingleColumn([0x5B, 0xFB, 0x12, 0xC7]), [0xFD, 0x05, 0x8D, 0xFD]) == [0x88, 0x42, 0x5B, 0x6C]
  {
  }

  lemma Substituted5()
    ensures Sub(0x24) == 0x36 && Sub(0x66) == 0x33 && Sub(0x75) == 0x9D && Sub(0x6C) == 0x50
    ensures Sub(0x69) == 0xF9 && Sub(0xD2) == 0xB5 && Sub(0x5B) == 0x39 && Sub(0x23) == 0x26
    ensures Sub(0x6E) == 0x9F && Sub(0x42) == 0x2C && Sub(0x40) == 0x09 && Sub(0xFA) == 0x2D
    ensures Sub(0x88) == 0xC4 && Sub(0x72) == 0x40 && Sub(0xB3) == 0x6D && Sub(0x32) == 0x23
  {
    hide Sub;
    SubAt(0x24, 2, 4); SubAt(0x66, 6, 6); SubAt(0x75, 7, 5); SubAt(0x6C, 6, 12);
    SubAt(0x69, 6, 9); SubAt(0xD2, 13, 2); SubAt(0x5B, 5, 11); SubAt(0x23, 2, 3);
    SubAt(0x6E, 6, 14); SubAt(0x42, 4, 2); SubAt(0x40, 4, 0); SubAt(0xFA, 15, 10);
    SubAt(0x88, 8, 8); SubAt(0x72, 7, 2); SubAt(0xB3, 11, 3); SubAt(0x32, 3, 2);
  }

  lemma Mixed5()
    ensures Plus(MixSingleColumn([0x36, 0x33, 0x9D, 0x50]), [0x3C, 0xAA, 0xA3, 0xE8]) == [0xC8, 0x16, 0x77, 0xBC]
    ensures Plus(MixSingleColumn([0xF9, 0xB5, 0x39, 0x26]), [0xA9, 0x9F, 0x9D, 0xEB]) == [0x9B, 0x7A, 0xC9, 0x3B]
    ensures Plus(MixSingleColumn([0x9F, 0x2C, 0x09, 0x2D]), [0x50, 0xF3, 0xAF, 0x57]) == [0x25, 0x02, 0x79, 0x92]
    ensures Plus(MixSingleColumn([0xC4, 0x40, 0x6D, 0x23]), [0xAD, 0xF6, 0x22, 0xAA]) == [0xB0, 0x26, 0x19, 0x96]
  {
  }

  lemma Substituted6()
    ensures Sub(0xC8) == 0xE8 && Sub(0x7A) == 0xDA && Sub(0x79) == 0xB6 && Sub(0x96) == 0x90
    ensures Sub(0x9B) == 0x14 && Sub(0x02) == 0x77 && Sub(0x19) == 0xD4 && Sub(0xBC) == 0x65
    ensures Sub(0x25) == 0x3F && Sub(0x26) == 0xF7 && Sub(0x77) == 0xF5 && Sub(0x3B) == 0xE2
    ensures Sub(0xB0) == 0xE7 && Sub(0x16) == 0x47 && Sub(0xC9) == 0xDD && Sub(0x92) == 0x4F
  {
    hide Sub;
    SubAt(0xC8, 12, 8); SubAt(0x7A, 7, 10); SubAt(0x79, 7, 9); SubAt(0x96, 9, 6);
    SubAt(0x9B, 9, 11); SubAt(0x02, 0, 2); SubAt(0x19, 1, 9); SubAt(0xBC, 11, 12);
    SubAt(0x25, 2, 5); SubAt(0x26, 2, 6); SubAt(0x77, 7, 7); SubAt(0x3B, 3, 11);
    SubAt(0xB0, 11, 0); SubAt(0x16, 1, 6); SubAt(0xC9, 12, 9); SubAt(0x92, 9, 2);
  }

  lemma Mixed6()
    ensures Plus(MixSingleColumn([0xE8, 0xDA, 0xB6, 0x90]), [0x5E, 0x39, 0x0F, 0x7D]) == [0xC6, 0x2F, 0xE1, 0x09]
    ensures Plus(MixSingleColumn([0x14, 0x77, 0xD4, 0x65]), [0xF7, 0xA6, 0x92, 0x96]) == [0xF7, 0x5E, 0xED, 0xC3]
    ensures Plus(MixSingleColumn([0x3F, 0xF7, 0xF5, 0xE2]), [0xA7, 0x55, 0x3D, 0xC1]) == [0xCC, 0x79, 0x39, 0x5D]
    ensures Plus(MixSingleColumn([0xE7, 0x47, 0xDD, 0x4F]), [0x0A, 0xA3, 0x1F, 0x6B]) == [0x84, 0xF9, 0xCF, 0x5D]
  {
  }

  lemma Substituted7()
    ensures Sub(0xC6) == 0xB4 && Sub(0x5E) == 0x58 && Sub(0x39) == 0x12 && Sub(0x5D) == 0x4C
    ensures Sub(0xF7) == 0x68 && Sub(0x79) == 0xB6 && Sub(0xCF) == 0x8A && Sub(0x09) == 0x01
    ensures Sub(0xCC) == 0x4B && Sub(0xF9) == 0x99 && Sub(0xE1) == 0xF8 && Sub(0xC3) == 0x2E
    ensures Sub(0x84) == 0x5F && Sub(0x2F) == 0x15 && Sub(0xED) == 0x55 && Sub(0x5D) == 0x4C
  {
    hide Sub;
    SubAt(0xC6, 12, 6); SubAt(0x5E, 5, 14); SubAt(0x39, 3, 9); SubAt(0x5D, 5, 13);
    SubAt(0xF7, 15, 7); SubAt(0x79, 7, 9); SubAt(0xCF, 12, 15); SubAt(0x09, 0, 9);
    SubAt(0xCC, 12, 12); SubAt(0xF9, 15, 9); SubAt(0xE1, 14, 1); SubAt(0xC3, 12, 3);
    SubAt(0x84, 8, 4); SubAt(0x2F, 2, 15); SubAt(0xED, 14, 13); SubAt(0x5D, 5, 13);
  }

  lemma Mixed7()
    ensures Plus(MixSingleColumn([0xB4, 0x58, 0x12, 0x4C]), [0x14, 0xF9, 0x70, 0x1A]) == [0xD1, 0x87, 0x6C, 0x0F]
    ensures Plus(MixSingleColumn([0x68, 0xB6, 0x8A, 0x01]), [0xE3, 0x5F, 0xE2, 0x8C]) == [0x79, 0xC4, 0x30, 0x0A]
    ensures Plus(MixSingleColumn([0x4B, 0x99, 0xF8, 0x2E]), [0x44, 0x0A, 0xDF, 0x4D]) == [0xB4, 0x55, 0x94, 0xAD]
    ensures Plus(MixSingleColumn([0x5F, 0x15, 0x55, 0x4C]), [0x4E, 0xA9, 0xC0, 0x26]) == [0xD6, 0x6F, 0xF4, 0x1F]
  {
  }

  lemma Substituted8()
    ensures Sub(0xD1) == 0x3E && Sub(0xC4) == 0x1C && Sub(0x94) == 0x22 && Sub(0x1F) == 0xC0
    ensures Sub(0x79) == 0xB6 && Sub(0x55) == 0xFC && Sub(0xF4) == 0xBF && Sub(0x0F) == 0x76
    ensures Sub(0xB4) == 0x8D && Sub(0x6F) == 0xA8 && Sub(0x6C) == 0x50 && Sub(0x0A) == 0x67
    ensures Sub(0xD6) == 0xF6 && Sub(0x87) == 0x17 && Sub(0x30) == 0x04 && Sub(0xAD) == 0x95
  {
    hide Sub;
    SubAt(0xD1, 13, 1); SubAt(0xC4, 12, 4); SubAt(0x94, 9, 4); SubAt(0x1F, 1, 15);
    SubAt(0x79, 7, 9); SubAt(0x55, 5, 5); SubAt(0xF4, 15, 4); SubAt(0x0F, 0, 15);
    SubAt(0xB4, 11, 4); SubAt(0x6F, 6, 15); SubAt(0x6C, 6, 12); SubAt(0x0A, 0, 10);
    SubAt(0xD6, 13, 6); SubAt(0x87, 8, 7); SubAt(0x30, 3, 0); SubAt(0xAD, 10, 13);
  }

  lemma Mixed8()
    ensures Plus(MixSingleColumn([0x3E, 0x1C, 0x22, 0xC0]), [0x47, 0x43, 0x87, 0x35]) == [0xFD, 0xE3, 0xBA, 0xD2]
    ensures Plus(MixSingleColumn([0xB6, 0xFC, 0xBF, 0x76]), [0xA4, 0x1C, 0x65, 0xB9]) == [0x05, 0xE5, 0xD0, 0xD7]
    ensures Plus(MixSingleColumn([0x8D, 0xA8, 0x50, 0x67]), [0xE0, 0x16, 0xBA, 0xF4]) == [0x35, 0x47, 0x96, 0x4E]
    ensures Plus(MixSingleColumn([0xF6, 0x17, 0x04, 0x95]), [0xAE, 0xBF, 0x7A, 0xD2]) == [0xF1, 0xFE, 0x37, 0xF1]
  {
  }

  lemma Substituted9()
    ensures Sub(0xFD) == 0x54 && Sub(0xE5) == 0xD9 && Sub(0x96) == 0x90 && Sub(0xF1) == 0xA1
    ensures Sub(0x05) == 0x6B && Sub(0x47) == 0xA0 && Sub(0x37) == 0x9A && Sub(0xD2) == 0xB5
    ensures Sub(0x35) == 0x96 && Sub(0xFE) == 0xBB && Sub(0xBA) == 0xF4 && Sub(0xD7) == 0x0E
    ensures Sub(0xF1) == 0xA1 && Sub(0xE3) == 0x11 && Sub(0xD0) == 0x70 && Sub(0x4E) == 0x2F
  {
    hide Sub;
    SubAt(0xFD, 15, 13); SubAt(0xE5, 14, 5); SubAt(0x96, 9, 6); SubAt(0xF1, 15, 1);
    SubAt(0x05, 0, 5); SubAt(0x47, 4, 7); SubAt(0x37, 3, 7); SubAt(0xD2, 13, 2);
    SubAt(0x35, 3, 5); SubAt(0xFE, 15, 14); SubAt(0xBA, 11, 10); SubAt(0xD7, 13, 7);
    SubAt(0xF1, 15, 1); SubAt(0xE3, 14, 3); SubAt(0xD0, 13, 0); SubAt(0x4E, 4, 14);
  }

  lemma Mixed9()
    ensures Plus(MixSingleColumn([0x54, 0xD9, 0x90, 0xA1]), [0x54, 0x99, 0x32, 0xD1]) == [0xBD, 0x6E, 0x7C, 0x3D]
    ensures Plus(MixSingleColumn([0x6B, 0xA0, 0x9A, 0xB5]), [0xF0, 0x85, 0x57, 0x68]) == [0xF2, 0xB5, 0x77, 0x9E]
    ensures Plus(MixSingleColumn([0x96, 0xBB, 0xF4, 0x0E]), [0x10, 0x93, 0xED, 0x9C]) == [0x0B, 0x61, 0x21, 0x6E]
    ensures Plus(MixSingleColumn([0xA1, 0x11, 0x70, 0x2F]), [0xBE, 0x2C, 0x97, 0x4E]) == [0x8B, 0x10, 0xB6, 0x89]
  {
  }

  lemma Substituted10()
    ensures Sub(0xBD) == 0x7A && Sub(0xB5) == 0xD5 && Sub(0x21) == 0xFD && Sub(0x89) == 0xA7
    ensures Sub(0xF2) == 0x89 && Sub(0x61) == 0xEF && Sub(0xB6) == 0x4E && Sub(0x3D) == 0x27
    ensures Sub(0x0B) == 0x2B && Sub(0x10) == 0xCA && Sub(0x7C) == 0x10 && Sub(0x9E) == 0x0B
    ensures Sub(0x8B) == 0x3D && Sub(0x6E) == 0x9F && Sub(0x77) == 0xF5 && Sub(0x6E) == 0x9F
  {
    hide Sub;
    SubAt(0xBD, 11, 13); SubAt(0xB5, 11, 5); SubAt(0x21, 2, 1); SubAt(0x89, 8, 9);
    SubAt(0xF2, 15, 2); SubAt(0x61, 6, 1); SubAt(0xB6, 11, 6); SubAt(0x3D, 3, 13);
    SubAt(0x0B, 0, 11); SubAt(0x10, 1, 0); SubAt(0x7C, 7, 12); SubAt(0x9E, 9, 14);
    SubAt(0x8B, 8, 11); SubAt(0x6E, 6, 14); SubAt(0x77, 7, 7); SubAt(0x6E, 6, 14);
  }

  lemma Mixed10()
    ensures Plus([0x7A, 0xD5, 0xFD, 0xA7], [0x13, 0x11, 0x1D, 0x7F]) == [0x69, 0xC4, 0xE0, 0xD8]
    ensures Plus([0x89, 0xEF, 0x4E, 0x27], [0xE3, 0x94, 0x4A, 0x17]) == [0x6A, 0x7B, 0x04, 0x30]
    ensures Plus([0x2B, 0xCA, 0x10, 0x0B], [0xF3, 0x07, 0xA7, 0x8B]) == [0xD8, 0xCD, 0xB7, 0x80]
    ensures Plus([0x3D, 0x9F, 0xF5, 0x9F], [0x4D, 0x2B, 0x30, 0xC5]) == [0x70, 0xB4, 0xC5, 0x5A]
  {
  }

  // ----- the rounds of the example -----

  ghost predicate WordsFollow(r: nat)
    requires 1 <= r <= 10
  {
    var past, next := Words(r - 1), Words(r);
    && next[0] == Plus(past[0], Increment(past[3], 4 * r))
    && next[1] == Plus(past[1], next[0]) && next[2] == Plus(past[2], next[1]) && next[3] == Plus(past[3], next[2])
  }

  lemma FirstWordsFollow()
    ensures WordsFollow(1) && WordsFollow(2) && WordsFollow(3)
  {
    hide Sub, Increment;
    FirstIncrements();
  }

  lemma MiddleWordsFollow()
    ensures WordsFollow(4) && WordsFollow(5) && WordsFollow(6)
  {
    hide Sub, Increment;
    MiddleIncrements();
  }

  lemma LastWordsFollow()
    ensures WordsFollow(7) && WordsFollow(8) && WordsFollow(9) && WordsFollow(10)
  {
    hide Sub, Increment;
    LastIncrements();
  }

  lemma EveryWordFollows(r: nat)
    requires 1 <= r <= 10
    ensures WordsFollow(r)
  {
    hide WordsFollow;
    FirstWordsFollow();
    MiddleWordsFollow();
    LastWordsFollow();
    assert r == 1 || r == 2 || r == 3 || r == 4 || r == 5 || r == 6 || r == 7 || r == 8 || r == 9 || r == 10;
  }

  ghost predicate Expanded(r: nat)
    requires r <= 10
  {
    && KeyWord(KEY, 4 * r) == Words(r)[0] && KeyWord(KEY, 4 * r + 1) == Words(r)[1]
    && KeyWord(KEY, 4 * r + 2) == Words(r)[2] && KeyWord(KEY, 4 * r + 3) == Words(r)[3]
  }

  lemma NextWord(i: nat)
    requires 4 <= i < 44
    ensures i % 4 == 0 ==> KeyWord(KEY, i) == Plus(KeyWord(KEY, i - 4), Increment(KeyWord(KEY, i - 1), i))
    ensures i % 4 != 0 ==> KeyWord(KEY, i) == Plus(KeyWord(KEY, i - 4), KeyWord(KEY, i - 1))
  {
    hide Plus, Sub;
  }

  // The whole expanded key of the example.
  lemma {:induction false} ExpandsToWords(r: nat)
    requires r <= 10
    ensures Expanded(r)
  {
    hide Plus, Increment, KeyWord, Words;
    if r == 0 {
      FirstWords();
    } else {
      ExpandsToWords(r - 1);
      EveryWordFollows(r);
      NextWord(4 * r);
      NextWord(4 * r + 1);
      NextWord(4 * r + 2);
      NextWord(4 * r + 3);
    }
  }

  lemma FirstWords()
    ensures Expanded(0)
  {
  }

  // Column c of the state after a round, from those before and the words of the round.
  ghost predicate ColumnFollows(r: nat, c: nat)
    requires 1 <= r <= 10 && c < 4
  {
    var past := Columns(r - 1);
    var shifted := [Sub(past[c][0]), Sub(past[(c + 1) % 4][1]), Sub(past[(c + 2) % 4][2]), Sub(past[(c + 3) % 4][3])];
    Columns(r)[c] == Plus(if r < 10 then MixSingleColumn(shifted) else shifted, Words(r)[c])
  }

  ghost predicate ColumnsFollow(r: nat)
    requires 1 <= r <= 10
  {
    ColumnFollows(r, 0) && ColumnFollows(r, 1) && ColumnFollows(r, 2) && ColumnFollows(r, 3)
  }

  lemma Columns1()
    ensures ColumnsFollow(1)
  {
    hide Sub, MixSingleColumn, Plus;
    Substituted1();
    Mixed1();
  }

  lemma Columns2()
    ensures ColumnsFollow(2)
  {
    hide Sub, MixSingleColumn, Plus;
    Substituted2();
    Mixed2();
  }

  lemma Columns3()
    ensures ColumnsFollow(3)
  {
    hide Sub, MixSingleColumn, Plus;
    Substituted3();
    Mixed3();
  }

  lemma Columns4()
    ensures ColumnsFollow(4)
  {
    hide Sub, MixSingleColumn, Plus;
    Substituted4();
    Mixed4();
  }

  lemma Columns5()
    ensures ColumnsFollow(5)
  {
    hide Sub, MixSingleColumn, Plus;
    Substituted5();
    Mixed5();
  }

  lemma Columns6()
    ensures ColumnsFollow(6)
  {
    hide Sub, MixSingleColumn, Plus;
    Substituted6();
    Mixed6();
  }

  lemma Columns7()
    ensures ColumnsFollow(7)
  {
    hide Sub, MixSingleColumn, Plus;
    Substituted7();
    Mixed7();
  }

  lemma Columns8()
    ensures ColumnsFollow(8)
  {
    hide Sub, MixSingleColumn, Plus;
    Substituted8();
    Mixed8();
  }

  lemma Columns9()
    ensures ColumnsFollow(9)
  {
    hide Sub, MixSingleColumn, Plus;
    Substituted9();
    Mixed9();
  }

  lemma Columns10()
    ensures ColumnsFollow(10)
  {
    hide Sub, MixSingleColumn, Plus;
    Substituted10();
    Mixed10();
  }

  lemma EveryColumnFollows(r: nat)
    requires 1 <= r <= 10
    ensures ColumnsFollow(r)
  {
    hide ColumnsFollow;
    match r {
      case 1 => Columns1();
      case 2 => Columns2();
      case 3 => Columns3();
      case 4 => Columns4();
      case 5 => Columns5();
      case 6 => Columns6();
      case 7 => Columns7();
      case 8 => Columns8();
      case 9 => Columns9();
      case _ => Columns10();
    }
  }

  ghost predicate IsExpansion(ks: seq<Word>)
    requires IsSchedule(ks)
  {
    forall i :: 0 <= i < 44 ==> ks[i] == KeyWord(KEY, i)
  }

  ghost predicate HasColumns(s: State, cols: seq<Column>)
    requires |cols| == 4
  {
    IsState(s) && forall c :: 0 <= c < 4 ==> ColumnOf(s, c) == cols[c]
  }

  lemma WordOfRound(ks: seq<Word>, r: nat, c: nat)
    requires IsSchedule(ks) && IsExpansion(ks) && r <= 10 && c < 4
    ensures ks[4 * r + c] == Words(r)[c]
  {
    hide KeyWord, Words;
    ExpandsToWords(r);
    assert c == 0 || c == 1 || c == 2 || c == 3;
  }

  lemma DiagonalOf(s: State, r: nat, c: nat)
    requires 1 <= r <= 10 && c < 4 && HasColumns(s, Columns(r - 1))
    ensures ColumnFollows(r, c) ==>
      Columns(r)[c] == Plus(if r < 10 then MixSingleColumn(Diagonal(s, c)) else Diagonal(s, c), Words(r)[c])
  {
    hide Sub, MixSingleColumn, Plus, Columns, Words;
    forall i | 0 <= i < 4 ensures s[0][i] == Columns(r - 1)[i][0] && s[1][i] == Columns(r - 1)[i][1]
      ensures s[2][i] == Columns(r - 1)[i][2] && s[3][i] == Columns(r - 1)[i][3]
    {
      assert ColumnOf(s, i) == Columns(r - 1)[i];
    }
  }

  // The state after every round of the example.
  lemma {:induction false} RoundsGiveColumns(ks: seq<Word>, r: nat)
    requires IsSchedule(ks) && IsExpansion(ks) && r <= 9
    ensures HasColumns(RoundState(PLAIN, ks, r), Columns(r))
  {
    hide AddRoundKey, Mix, ShiftRows, SubBytes, MixSingleColumn, Plus, Diagonal, Columns, Words, IsExpansion, ColumnFollows, ColumnOf, BytesToState;
    if r == 0 {
      FirstState(ks);
    } else {
      var s := RoundState(PLAIN, ks, r - 1);
      RoundsGiveColumns(ks, r - 1);
      EveryColumnFollows(r);
      forall c | 0 <= c < 4 ensures ColumnOf(RoundState(PLAIN, ks, r), c) == Columns(r)[c] {
        Column(ks, s, r, c);
      }
    }
  }

  lemma Column(ks: seq<Word>, s: State, r: nat, c: nat)
    requires IsSchedule(ks) && IsExpansion(ks) && 1 <= r <= 10 && c < 4 && HasColumns(s, Columns(r - 1)) && ColumnsFollow(r)
    ensures r < 10 ==> ColumnOf(AddRoundKey(Mix(ShiftRows(SubBytes(s))), ks, r), c) == Columns(r)[c]
    ensures r == 10 ==> ColumnOf(AddRoundKey(ShiftRows(SubBytes(s)), ks, r), c) == Columns(r)[c]
  {
    hide AddRoundKey, Mix, ShiftRows, SubBytes, MixSingleColumn, Plus, Diagonal, Columns, Words, ColumnFollows, ColumnOf;
    RoundByColumns(s, ks, r, c);
    WordOfRound(ks, r, c);
    DiagonalOf(s, r, c);
    assert ColumnFollows(r, c) by {
      assert c == 0 || c == 1 || c == 2 || c == 3;
    }
  }

  lemma PlainColumn(c: nat)
    requires c < 4
    ensures Plus(ColumnOf(BytesToState(PLAIN), c), Words(0)[c]) == Columns(0)[c]
  {
    assert c == 0 || c == 1 || c == 2 || c == 3;
    assert ColumnOf(BytesToState(PLAIN), c) == [PLAIN[4 * c], PLAIN[4 * c + 1], PLAIN[4 * c + 2], PLAIN[4 * c + 3]];
  }

  lemma FirstState(ks: seq<Word>)
    requires IsSchedule(ks) && IsExpansion(ks)
    ensures HasColumns(RoundState(PLAIN, ks, 0), Columns(0))
  {
    hide IsExpansion, AddRoundKey, BytesToState, Columns, Words, Plus, ColumnOf;
    var s := BytesToState(PLAIN);
    forall c | 0 <= c < 4 ensures ColumnOf(AddRoundKey(s, ks, 0), c) == Columns(0)[c] {
      WordOfRound(ks, 0, c);
      PlainColumn(c);
      AddRoundKeyAddsWords(s, ks, 0, c);
    }
  }

  // The published ciphertext, under whatever KeyExpansion makes of the key; and back.
  lemma CipherExample(ks: seq<Word>)
    requires IsSchedule(ks) && IsExpansion(ks)
    ensures Encrypt(PLAIN, ks) == Some(CIPHER) && Decrypt(CIPHER, ks) == Some(PLAIN)
  {
    hide AddRoundKey, Mix, ShiftRows, SubBytes, MixSingleColumn, Plus, Diagonal, Columns, Words, IsExpansion, ColumnFollows, RoundState, Decrypt, StateToBytes;
    var s := RoundState(PLAIN, ks, 9);
    RoundsGiveColumns(ks, 9);
    EveryColumnFollows(10);
    forall c | 0 <= c < 4 ensures ColumnOf(AddRoundKey(ShiftRows(SubBytes(s)), ks, 10), c) == Columns(10)[c] {
      Column(ks, s, 10, c);
    }
    CipherBytes(AddRoundKey(ShiftRows(SubBytes(s)), ks, 10));
    DecryptUndoesEncrypt(PLAIN, ks);
    assert PLAIN[..16] == PLAIN;
  }

  lemma CipherIsLastColumns()
    ensures CIPHER == Columns(10)[0] + Columns(10)[1] + Columns(10)[2] + Columns(10)[3]
  {
  }

  lemma CipherBytes(s: State)
    requires HasColumns(s, Columns(10))
    ensures StateToBytes(s) == CIPHER
  {
    hide Columns;
    CipherIsLastColumns();
    forall i | 0 <= i < 16 ensures StateToBytes(s)[i] == CIPHER[i] {
      assert ColumnOf(s, i / 4) == Columns(10)[i / 4];
      assert ColumnOf(s, i / 4)[i % 4] == s[i % 4][i / 4];
      assert i / 4 == 0 || i / 4 == 1 || i / 4 == 2 || i / 4 == 3;
    }
  }
}
