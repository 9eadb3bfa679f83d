/**
 * The test vector of armsrc/hitag2_crypto.c:68-75, clock by clock: the register
 * after every step of the initialisation and every clock of the key stream.
 */
module Hitag2Vector {
  import opened Bits
  import opened Hitag2Cipher
  import opened Hitag2

  lemma Words()
    ensures Word48([0x4F, 0x4E, 0x4D, 0x49, 0x4B, 0x52]) == 0x4AD292B272F2
    ensures Word32([0x49, 0x43, 0x57, 0x69]) == 0x96EAC292 && Word32([0x65, 0x6E, 0x45, 0x72]) == 0x4EA276A6
  {
  }

  lemma InitSteps0()
    ensures InitStep(0x72F296EAC292, 0x4AD292B272F2, 0x4EA276A6, 0) == 0x39794B756149
    ensures InitStep(0x39794B756149, 0x4AD292B272F2, 0x4EA276A6, 1) == 0x9CBCA5BAB0A4
    ensures InitStep(0x9CBCA5BAB0A4, 0x4AD292B272F2, 0x4EA276A6, 2) == 0x4E5E52DD5852
    ensures InitStep(0x4E5E52DD5852, 0x4AD292B272F2, 0x4EA276A6, 3) == 0xA72F296EAC29
  {
  }

  lemma InitSteps4()
    ensures InitStep(0xA72F296EAC29, 0x4AD292B272F2, 0x4EA276A6, 4) == 0xD39794B75614
    ensures InitStep(0xD39794B75614, 0x4AD292B272F2, 0x4EA276A6, 5) == 0x69CBCA5BAB0A
    ensures InitStep(0x69CBCA5BAB0A, 0x4AD292B272F2, 0x4EA276A6, 6) == 0xB4E5E52DD585
    ensures InitStep(0xB4E5E52DD585, 0x4AD292B272F2, 0x4EA276A6, 7) == 0xDA72F296EAC2
  {
  }

  lemma InitSteps8()
    ensures InitStep(0xDA72F296EAC2, 0x4AD292B272F2, 0x4EA276A6, 8) == 0xED39794B7561
    ensures InitStep(0xED39794B7561, 0x4AD292B272F2, 0x4EA276A6, 9) == 0xF69CBCA5BAB0
    ensures InitStep(0xF69CBCA5BAB0, 0x4AD292B272F2, 0x4EA276A6, 10) == 0xFB4E5E52DD58
    ensures InitStep(0xFB4E5E52DD58, 0x4AD292B272F2, 0x4EA276A6, 11) == 0xFDA72F296EAC
  {
  }

  lemma InitSteps12()
    ensures InitStep(0xFDA72F296EAC, 0x4AD292B272F2, 0x4EA276A6, 12) == 0x7ED39794B756
    ensures InitStep(0x7ED39794B756, 0x4AD292B272F2, 0x4EA276A6, 13) == 0xBF69CBCA5BAB
    ensures InitStep(0xBF69CBCA5BAB, 0x4AD292B272F2, 0x4EA276A6, 14) == 0x5FB4E5E52DD5
    ensures InitStep(0x5FB4E5E52DD5, 0x4AD292B272F2, 0x4EA276A6, 15) == 0xAFDA72F296EA
  {
  }

  lemma InitSteps16()
    ensures InitStep(0xAFDA72F296EA, 0x4AD292B272F2, 0x4EA276A6, 16) == 0x57ED39794B75
    ensures InitStep(0x57ED39794B75, 0x4AD292B272F2, 0x4EA276A6, 17) == 0x2BF69CBCA5BA
    ensures InitStep(0x2BF69CBCA5BA, 0x4AD292B272F2, 0x4EA276A6, 18) == 0x15FB4E5E52DD
    ensures InitStep(0x15FB4E5E52DD, 0x4AD292B272F2, 0x4EA276A6, 19) == 0x0AFDA72F296E
  {
  }

  lemma InitSteps20()
    ensures InitStep(0x0AFDA72F296E, 0x4AD292B272F2, 0x4EA276A6, 20) == 0x057ED39794B7
    ensures InitStep(0x057ED39794B7, 0x4AD292B272F2, 0x4EA276A6, 21) == 0x82BF69CBCA5B
    ensures InitStep(0x82BF69CBCA5B, 0x4AD292B272F2, 0x4EA276A6, 22) == 0x415FB4E5E52D
    ensures InitStep(0x415FB4E5E52D, 0x4AD292B272F2, 0x4EA276A6, 23) == 0xA0AFDA72F296
  {
  }

  lemma InitSteps24()
    ensures InitStep(0xA0AFDA72F296, 0x4AD292B272F2, 0x4EA276A6, 24) == 0x5057ED39794B
    ensures InitStep(0x5057ED39794B, 0x4AD292B272F2, 0x4EA276A6, 25) == 0xA82BF69CBCA5
    ensures InitStep(0xA82BF69CBCA5, 0x4AD292B272F2, 0x4EA276A6, 26) == 0x5415FB4E5E52
    ensures InitStep(0x5415FB4E5E52, 0x4AD292B272F2, 0x4EA276A6, 27) == 0xAA0AFDA72F29
  {
  }

  lemma InitSteps28()
    ensures InitStep(0xAA0AFDA72F29, 0x4AD292B272F2, 0x4EA276A6, 28) == 0xD5057ED39794
    ensures InitStep(0xD5057ED39794, 0x4AD292B272F2, 0x4EA276A6, 29) == 0x6A82BF69CBCA
    ensures InitStep(0x6A82BF69CBCA, 0x4AD292B272F2, 0x4EA276A6, 30) == 0x35415FB4E5E5
    ensures InitStep(0x35415FB4E5E5, 0x4AD292B272F2, 0x4EA276A6, 31) == 0x1AA0AFDA72F2
  {
  }

  lemma Reaches8()
    ensures InitFrom(0x72F296EAC292, 0x4AD292B272F2, 0x4EA276A6, 0) == InitFrom(0xDA72F296EAC2, 0x4AD292B272F2, 0x4EA276A6, 8)
  {
    hide InitStep, InitFrom;
    InitSteps0();
    InitSteps4();
    InitNext(0x72F296EAC292, 0x39794B756149, 0x4AD292B272F2, 0x4EA276A6, 0);
    InitNext(0x39794B756149, 0x9CBCA5BAB0A4, 0x4AD292B272F2, 0x4EA276A6, 1);
    InitNext(0x9CBCA5BAB0A4, 0x4E5E52DD5852, 0x4AD292B272F2, 0x4EA276A6, 2);
    InitNext(0x4E5E52DD5852, 0xA72F296EAC29, 0x4AD292B272F2, 0x4EA276A6, 3);
    InitNext(0xA72F296EAC29, 0xD39794B75614, 0x4AD292B272F2, 0x4EA276A6, 4);
    InitNext(0xD39794B75614, 0x69CBCA5BAB0A, 0x4AD292B272F2, 0x4EA276A6, 5);
    InitNext(0x69CBCA5BAB0A, 0xB4E5E52DD585, 0x4AD292B272F2, 0x4EA276A6, 6);
    InitNext(0xB4E5E52DD585, 0xDA72F296EAC2, 0x4AD292B272F2, 0x4EA276A6, 7);
  }

  lemma Reaches16()
    ensures InitFrom(0xDA72F296EAC2, 0x4AD292B272F2, 0x4EA276A6, 8) == InitFrom(0xAFDA72F296EA, 0x4AD292B272F2, 0x4EA276A6, 16)
  {
    hide InitStep, InitFrom;
    InitSteps8();
    InitSteps12();
    InitNext(0xDA72F296EAC2, 0xED39794B7561, 0x4AD292B272F2, 0x4EA276A6, 8);
    InitNext(0xED39794B7561, 0xF69CBCA5BAB0, 0x4AD292B272F2, 0x4EA276A6, 9);
    InitNext(0xF69CBCA5BAB0, 0xFB4E5E52DD58, 0x4AD292B272F2, 0x4EA276A6, 10);
    InitNext(0xFB4E5E52DD58, 0xFDA72F296EAC, 0x4AD292B272F2, 0x4EA276A6, 11);
    InitNext(0xFDA72F296EAC, 0x7ED39794B756, 0x4AD292B272F2, 0x4EA276A6, 12);
    InitNext(0x7ED39794B756, 0xBF69CBCA5BAB, 0x4AD292B272F2, 0x4EA276A6, 13);
    InitNext(0xBF69CBCA5BAB, 0x5FB4E5E52DD5, 0x4AD292B272F2, 0x4EA276A6, 14);
    InitNext(0x5FB4E5E52DD5, 0xAFDA72F296EA, 0x4AD292B272F2, 0x4EA276A6, 15);
  }

  lemma Reaches24()
    ensures InitFrom(0xAFDA72F296EA, 0x4AD292B272F2, 0x4EA276A6, 16) == InitFrom(0xA0AFDA72F296, 0x4AD292B272F2, 0x4EA276A6, 24)
  {
    hide InitStep, InitFrom;
    InitSteps16();
    InitSteps20();
    InitNext(0xAFDA72F296EA, 0x57ED39794B75, 0x4AD292B272F2, 0x4EA276A6, 16);
    InitNext(0x57ED39794B75, 0x2BF69CBCA5BA, 0x4AD292B272F2, 0x4EA276A6, 17);
    InitNext(0x2BF69CBCA5BA, 0x15FB4E5E52DD, 0x4AD292B272F2, 0x4EA276A6, 18);
    InitNext(0x15FB4E5E52DD, 0x0AFDA72F296E, 0x4AD292B272F2, 0x4EA276A6, 19);
    InitNext(0x0AFDA72F296E, 0x057ED39794B7, 0x4AD292B272F2, 0x4EA276A6, 20);
    InitNext(0x057ED39794B7, 0x82BF69CBCA5B, 0x4AD292B272F2, 0x4EA276A6, 21);
    InitNext(0x82BF69CBCA5B, 0x415FB4E5E52D, 0x4AD292B272F2, 0x4EA276A6, 22);
    InitNext(0x415FB4E5E52D, 0xA0AFDA72F296, 0x4AD292B272F2, 0x4EA276A6, 23);
  }

  lemma Reaches32()
    ensures InitFrom(0xA0AFDA72F296, 0x4AD292B272F2, 0x4EA276A6, 24) == InitFrom(0x1AA0AFDA72F2, 0x4AD292B272F2, 0x4EA276A6, 32)
  {
    hide InitStep, InitFrom;
    InitSteps24();
    InitSteps28();
    InitNext(0xA0AFDA72F296, 0x5057ED39794B, 0x4AD292B272F2, 0x4EA276A6, 24);
    InitNext(0x5057ED39794B, 0xA82BF69CBCA5, 0x4AD292B272F2, 0x4EA276A6, 25);
    InitNext(0xA82BF69CBCA5, 0x5415FB4E5E52, 0x4AD292B272F2, 0x4EA276A6, 26);
    InitNext(0x5415FB4E5E52, 0xAA0AFDA72F29, 0x4AD292B272F2, 0x4EA276A6, 27);
    InitNext(0xAA0AFDA72F29, 0xD5057ED39794, 0x4AD292B272F2, 0x4EA276A6, 28);
    InitNext(0xD5057ED39794, 0x6A82BF69CBCA, 0x4AD292B272F2, 0x4EA276A6, 29);
    InitNext(0x6A82BF69CBCA, 0x35415FB4E5E5, 0x4AD292B272F2, 0x4EA276A6, 30);
    InitNext(0x35415FB4E5E5, 0x1AA0AFDA72F2, 0x4AD292B272F2, 0x4EA276A6, 31);
  }

  lemma Initialised()
    ensures Init(0x4AD292B272F2, 0x96EAC292, 0x4EA276A6) == 0x1AA0AFDA72F2
  {
    hide InitStep, InitFrom;
    Reaches8();
    Reaches16();
    Reaches24();
    Reaches32();
    InitDone(0x1AA0AFDA72F2, 0x4AD292B272F2, 0x4EA276A6);
  }

  lemma Octet0()
    ensures Advance(0x1AA0AFDA72F2, 8) == 0xD11AA0AFDA72 && KeyBits(0x1AA0AFDA72F2, 8) == MsbFirst(0xD7)
  {
    assert Round(0x1AA0AFDA72F2) == 0x8D5057ED3979 && F20(0x8D5057ED3979);
    assert Round(0x8D5057ED3979) == 0x46A82BF69CBC && F20(0x46A82BF69CBC);
    assert Round(0x46A82BF69CBC) == 0x235415FB4E5E && !F20(0x235415FB4E5E);
    assert Round(0x235415FB4E5E) == 0x11AA0AFDA72F && F20(0x11AA0AFDA72F);
    assert Round(0x11AA0AFDA72F) == 0x88D5057ED397 && !F20(0x88D5057ED397);
    assert Round(0x88D5057ED397) == 0x446A82BF69CB && F20(0x446A82BF69CB);
    assert Round(0x446A82BF69CB) == 0xA235415FB4E5 && F20(0xA235415FB4E5);
    assert Round(0xA235415FB4E5) == 0xD11AA0AFDA72 && F20(0xD11AA0AFDA72);
  }

  lemma Octet1()
    ensures Advance(0xD11AA0AFDA72, 8) == 0x4FD11AA0AFDA && KeyBits(0xD11AA0AFDA72, 8) == MsbFirst(0x23)
  {
    assert Round(0xD11AA0AFDA72) == 0xE88D5057ED39 && !F20(0xE88D5057ED39);
    assert Round(0xE88D5057ED39) == 0xF446A82BF69C && !F20(0xF446A82BF69C);
    assert Round(0xF446A82BF69C) == 0xFA235415FB4E && F20(0xFA235415FB4E);
    assert Round(0xFA235415FB4E) == 0xFD11AA0AFDA7 && !F20(0xFD11AA0AFDA7);
    assert Round(0xFD11AA0AFDA7) == 0x7E88D5057ED3 && !F20(0x7E88D5057ED3);
    assert Round(0x7E88D5057ED3) == 0x3F446A82BF69 && !F20(0x3F446A82BF69);
    assert Round(0x3F446A82BF69) == 0x9FA235415FB4 && F20(0x9FA235415FB4);
    assert Round(0x9FA235415FB4) == 0x4FD11AA0AFDA && F20(0x4FD11AA0AFDA);
  }

  lemma Octet2()
    ensures Advance(0x4FD11AA0AFDA, 8) == 0x134FD11AA0AF && KeyBits(0x4FD11AA0AFDA, 8) == MsbFirst(0x7F)
  {
    assert Round(0x4FD11AA0AFDA) == 0xA7E88D5057ED && !F20(0xA7E88D5057ED);
    assert Round(0xA7E88D5057ED) == 0xD3F446A82BF6 && F20(0xD3F446A82BF6);
    assert Round(0xD3F446A82BF6) == 0x69FA235415FB && F20(0x69FA235415FB);
    assert Round(0x69FA235415FB) == 0x34FD11AA0AFD && F20(0x34FD11AA0AFD);
    assert Round(0x34FD11AA0AFD) == 0x9A7E88D5057E && F20(0x9A7E88D5057E);
    assert Round(0x9A7E88D5057E) == 0x4D3F446A82BF && F20(0x4D3F446A82BF);
    assert Round(0x4D3F446A82BF) == 0x269FA235415F && F20(0x269FA235415F);
    assert Round(0x269FA235415F) == 0x134FD11AA0AF && F20(0x134FD11AA0AF);
  }

  lemma Octet3()
    ensures Advance(0x134FD11AA0AF, 8) == 0xEE134FD11AA0 && KeyBits(0x134FD11AA0AF, 8) == MsbFirst(0xCE)
  {
    assert Round(0x134FD11AA0AF) == 0x09A7E88D5057 && F20(0x09A7E88D5057);
    assert Round(0x09A7E88D5057) == 0x84D3F446A82B && F20(0x84D3F446A82B);
    assert Round(0x84D3F446A82B) == 0xC269FA235415 && !F20(0xC269FA235415);
    assert Round(0xC269FA235415) == 0xE134FD11AA0A && !F20(0xE134FD11AA0A);
    assert Round(0xE134FD11AA0A) == 0x709A7E88D505 && F20(0x709A7E88D505);
    assert Round(0x709A7E88D505) == 0xB84D3F446A82 && F20(0xB84D3F446A82);
    assert Round(0xB84D3F446A82) == 0xDC269FA23541 && F20(0xDC269FA23541);
    assert Round(0xDC269FA23541) == 0xEE134FD11AA0 && !F20(0xEE134FD11AA0);
  }

  lemma Octet4()
    ensures Advance(0xEE134FD11AA0, 8) == 0xB7EE134FD11A && KeyBits(0xEE134FD11AA0, 8) == MsbFirst(0x8C)
  {
    assert Round(0xEE134FD11AA0) == 0xF709A7E88D50 && F20(0xF709A7E88D50);
    assert Round(0xF709A7E88D50) == 0xFB84D3F446A8 && !F20(0xFB84D3F446A8);
    assert Round(0xFB84D3F446A8) == 0xFDC269FA2354 && !F20(0xFDC269FA2354);
    assert Round(0xFDC269FA2354) == 0x7EE134FD11AA && !F20(0x7EE134FD11AA);
    assert Round(0x7EE134FD11AA) == 0xBF709A7E88D5 && F20(0xBF709A7E88D5);
    assert Round(0xBF709A7E88D5) == 0xDFB84D3F446A && F20(0xDFB84D3F446A);
    assert Round(0xDFB84D3F446A) == 0x6FDC269FA235 && !F20(0x6FDC269FA235);
    assert Round(0x6FDC269FA235) == 0xB7EE134FD11A && !F20(0xB7EE134FD11A);
  }

  lemma Octet5()
    ensures Advance(0xB7EE134FD11A, 8) == 0x1DB7EE134FD1 && KeyBits(0xB7EE134FD11A, 8) == MsbFirst(0xD0)
  {
    assert Round(0xB7EE134FD11A) == 0xDBF709A7E88D && F20(0xDBF709A7E88D);
    assert Round(0xDBF709A7E88D) == 0x6DFB84D3F446 && F20(0x6DFB84D3F446);
    assert Round(0x6DFB84D3F446) == 0xB6FDC269FA23 && !F20(0xB6FDC269FA23);
    assert Round(0xB6FDC269FA23) == 0xDB7EE134FD11 && F20(0xDB7EE134FD11);
    assert Round(0xDB7EE134FD11) == 0xEDBF709A7E88 && !F20(0xEDBF709A7E88);
    assert Round(0xEDBF709A7E88) == 0x76DFB84D3F44 && !F20(0x76DFB84D3F44);
    assert Round(0x76DFB84D3F44) == 0x3B6FDC269FA2 && !F20(0x3B6FDC269FA2);
    assert Round(0x3B6FDC269FA2) == 0x1DB7EE134FD1 && !F20(0x1DB7EE134FD1);
  }

  lemma Octet6()
    ensures Advance(0x1DB7EE134FD1, 8) == 0xC31DB7EE134F && KeyBits(0x1DB7EE134FD1, 8) == MsbFirst(0x37)
  {
    assert Round(0x1DB7EE134FD1) == 0x8EDBF709A7E8 && !F20(0x8EDBF709A7E8);
    assert Round(0x8EDBF709A7E8) == 0xC76DFB84D3F4 && !F20(0xC76DFB84D3F4);
    assert Round(0xC76DFB84D3F4) == 0x63B6FDC269FA && F20(0x63B6FDC269FA);
    assert Round(0x63B6FDC269FA) == 0x31DB7EE134FD && F20(0x31DB7EE134FD);
    assert Round(0x31DB7EE134FD) == 0x18EDBF709A7E && !F20(0x18EDBF709A7E);
    assert Round(0x18EDBF709A7E) == 0x0C76DFB84D3F && F20(0x0C76DFB84D3F);
    assert Round(0x0C76DFB84D3F) == 0x863B6FDC269F && F20(0x863B6FDC269F);
    assert Round(0x863B6FDC269F) == 0xC31DB7EE134F && F20(0xC31DB7EE134F);
  }

  lemma Octet7()
    ensures Advance(0xC31DB7EE134F, 8) == 0x4DC31DB7EE13 && KeyBits(0xC31DB7EE134F, 8) == MsbFirst(0xA9)
  {
    assert Round(0xC31DB7EE134F) == 0xE18EDBF709A7 && F20(0xE18EDBF709A7);
    assert Round(0xE18EDBF709A7) == 0x70C76DFB84D3 && !F20(0x70C76DFB84D3);
    assert Round(0x70C76DFB84D3) == 0xB863B6FDC269 && F20(0xB863B6FDC269);
    assert Round(0xB863B6FDC269) == 0xDC31DB7EE134 && !F20(0xDC31DB7EE134);
    assert Round(0xDC31DB7EE134) == 0x6E18EDBF709A && F20(0x6E18EDBF709A);
    assert Round(0x6E18EDBF709A) == 0x370C76DFB84D && !F20(0x370C76DFB84D);
    assert Round(0x370C76DFB84D) == 0x9B863B6FDC26 && !F20(0x9B863B6FDC26);
    assert Round(0x9B863B6FDC26) == 0x4DC31DB7EE13 && F20(0x4DC31DB7EE13);
  }

  lemma Octet8()
    ensures Advance(0x4DC31DB7EE13, 8) == 0x3D4DC31DB7EE && KeyBits(0x4DC31DB7EE13, 8) == MsbFirst(0x57)
  {
    assert Round(0x4DC31DB7EE13) == 0xA6E18EDBF709 && !F20(0xA6E18EDBF709);
    assert Round(0xA6E18EDBF709) == 0x5370C76DFB84 && F20(0x5370C76DFB84);
    assert Round(0x5370C76DFB84) == 0xA9B863B6FDC2 && !F20(0xA9B863B6FDC2);
    assert Round(0xA9B863B6FDC2) == 0xD4DC31DB7EE1 && F20(0xD4DC31DB7EE1);
    assert Round(0xD4DC31DB7EE1) == 0xEA6E18EDBF70 && !F20(0xEA6E18EDBF70);
    assert Round(0xEA6E18EDBF70) == 0xF5370C76DFB8 && F20(0xF5370C76DFB8);
    assert Round(0xF5370C76DFB8) == 0x7A9B863B6FDC && F20(0x7A9B863B6FDC);
    assert Round(0x7A9B863B6FDC) == 0x3D4DC31DB7EE && F20(0x3D4DC31DB7EE);
  }

  lemma Octet9()
    ensures Advance(0x3D4DC31DB7EE, 8) == 0x033D4DC31DB7 && KeyBits(0x3D4DC31DB7EE, 8) == MsbFirst(0x49)
  {
    assert Round(0x3D4DC31DB7EE) == 0x9EA6E18EDBF7 && !F20(0x9EA6E18EDBF7);
    assert Round(0x9EA6E18EDBF7) == 0xCF5370C76DFB && F20(0xCF5370C76DFB);
    assert Round(0xCF5370C76DFB) == 0x67A9B863B6FD && !F20(0x67A9B863B6FD);
    assert Round(0x67A9B863B6FD) == 0x33D4DC31DB7E && !F20(0x33D4DC31DB7E);
    assert Round(0x33D4DC31DB7E) == 0x19EA6E18EDBF && F20(0x19EA6E18EDBF);
    assert Round(0x19EA6E18EDBF) == 0x0CF5370C76DF && !F20(0x0CF5370C76DF);
    assert Round(0x0CF5370C76DF) == 0x067A9B863B6F && !F20(0x067A9B863B6F);
    assert Round(0x067A9B863B6F) == 0x033D4DC31DB7 && F20(0x033D4DC31DB7);
  }

  lemma Octet10()
    ensures Advance(0x033D4DC31DB7, 8) == 0x7C033D4DC31D && KeyBits(0x033D4DC31DB7, 8) == MsbFirst(0xC1)
  {
    assert Round(0x033D4DC31DB7) == 0x019EA6E18EDB && F20(0x019EA6E18EDB);
    assert Round(0x019EA6E18EDB) == 0x00CF5370C76D && F20(0x00CF5370C76D);
    assert Round(0x00CF5370C76D) == 0x8067A9B863B6 && !F20(0x8067A9B863B6);
    assert Round(0x8067A9B863B6) == 0xC033D4DC31DB && !F20(0xC033D4DC31DB);
    assert Round(0xC033D4DC31DB) == 0xE019EA6E18ED && !F20(0xE019EA6E18ED);
    assert Round(0xE019EA6E18ED) == 0xF00CF5370C76 && !F20(0xF00CF5370C76);
    assert Round(0xF00CF5370C76) == 0xF8067A9B863B && !F20(0xF8067A9B863B);
    assert Round(0xF8067A9B863B) == 0x7C033D4DC31D && F20(0x7C033D4DC31D);
  }

  lemma Octet11()
    ensures Advance(0x7C033D4DC31D, 8) == 0xB27C033D4DC3 && KeyBits(0x7C033D4DC31D, 8) == MsbFirst(0xE6)
  {
    assert Round(0x7C033D4DC31D) == 0x3E019EA6E18E && F20(0x3E019EA6E18E);
    assert Round(0x3E019EA6E18E) == 0x9F00CF5370C7 && F20(0x9F00CF5370C7);
    assert Round(0x9F00CF5370C7) == 0x4F8067A9B863 && F20(0x4F8067A9B863);
    assert Round(0x4F8067A9B863) == 0x27C033D4DC31 && !F20(0x27C033D4DC31);
    assert Round(0x27C033D4DC31) == 0x93E019EA6E18 && !F20(0x93E019EA6E18);
    assert Round(0x93E019EA6E18) == 0xC9F00CF5370C && F20(0xC9F00CF5370C);
    assert Round(0xC9F00CF5370C) == 0x64F8067A9B86 && F20(0x64F8067A9B86);
    assert Round(0x64F8067A9B86) == 0xB27C033D4DC3 && !F20(0xB27C033D4DC3);
  }

  lemma Octet12()
    ensures Advance(0xB27C033D4DC3, 8) == 0x4FB27C033D4D && KeyBits(0xB27C033D4DC3, 8) == MsbFirst(0x48)
  {
    assert Round(0xB27C033D4DC3) == 0xD93E019EA6E1 && !F20(0xD93E019EA6E1);
    assert Round(0xD93E019EA6E1) == 0xEC9F00CF5370 && F20(0xEC9F00CF5370);
    assert Round(0xEC9F00CF5370) == 0xF64F8067A9B8 && !F20(0xF64F8067A9B8);
    assert Round(0xF64F8067A9B8) == 0xFB27C033D4DC && !F20(0xFB27C033D4DC);
    assert Round(0xFB27C033D4DC) == 0x7D93E019EA6E && F20(0x7D93E019EA6E);
    assert Round(0x7D93E019EA6E) == 0x3EC9F00CF537 && !F20(0x3EC9F00CF537);
    assert Round(0x3EC9F00CF537) == 0x9F64F8067A9B && !F20(0x9F64F8067A9B);
    assert Round(0x9F64F8067A9B) == 0x4FB27C033D4D && !F20(0x4FB27C033D4D);
  }

  lemma Octet13()
    ensures Advance(0x4FB27C033D4D, 8) == 0x4C4FB27C033D && KeyBits(0x4FB27C033D4D, 8) == MsbFirst(0x00)
  {
    assert Round(0x4FB27C033D4D) == 0x27D93E019EA6 && !F20(0x27D93E019EA6);
    assert Round(0x27D93E019EA6) == 0x13EC9F00CF53 && !F20(0x13EC9F00CF53);
    assert Round(0x13EC9F00CF53) == 0x89F64F8067A9 && !F20(0x89F64F8067A9);
    assert Round(0x89F64F8067A9) == 0xC4FB27C033D4 && !F20(0xC4FB27C033D4);
    assert Round(0xC4FB27C033D4) == 0x627D93E019EA && !F20(0x627D93E019EA);
    assert Round(0x627D93E019EA) == 0x313EC9F00CF5 && !F20(0x313EC9F00CF5);
    assert Round(0x313EC9F00CF5) == 0x989F64F8067A && !F20(0x989F64F8067A);
    assert Round(0x989F64F8067A) == 0x4C4FB27C033D && !F20(0x4C4FB27C033D);
  }

  lemma Octet14()
    ensures Advance(0x4C4FB27C033D, 8) == 0x964C4FB27C03 && KeyBits(0x4C4FB27C033D, 8) == MsbFirst(0x8A)
  {
    assert Round(0x4C4FB27C033D) == 0x2627D93E019E && F20(0x2627D93E019E);
    assert Round(0x2627D93E019E) == 0x9313EC9F00CF && !F20(0x9313EC9F00CF);
    assert Round(0x9313EC9F00CF) == 0xC989F64F8067 && !F20(0xC989F64F8067);
    assert Round(0xC989F64F8067) == 0x64C4FB27C033 && !F20(0x64C4FB27C033);
    assert Round(0x64C4FB27C033) == 0xB2627D93E019 && F20(0xB2627D93E019);
    assert Round(0xB2627D93E019) == 0x59313EC9F00C && !F20(0x59313EC9F00C);
    assert Round(0x59313EC9F00C) == 0x2C989F64F806 && F20(0x2C989F64F806);
    assert Round(0x2C989F64F806) == 0x964C4FB27C03 && !F20(0x964C4FB27C03);
  }

  lemma Octet15()
    ensures Advance(0x964C4FB27C03, 8) == 0x33964C4FB27C && KeyBits(0x964C4FB27C03, 8) == MsbFirst(0xB6)
  {
    assert Round(0x964C4FB27C03) == 0xCB2627D93E01 && F20(0xCB2627D93E01);
    assert Round(0xCB2627D93E01) == 0xE59313EC9F00 && !F20(0xE59313EC9F00);
    assert Round(0xE59313EC9F00) == 0x72C989F64F80 && F20(0x72C989F64F80);
    assert Round(0x72C989F64F80) == 0x3964C4FB27C0 && F20(0x3964C4FB27C0);
    assert Round(0x3964C4FB27C0) == 0x9CB2627D93E0 && !F20(0x9CB2627D93E0);
    assert Round(0x9CB2627D93E0) == 0xCE59313EC9F0 && F20(0xCE59313EC9F0);
    assert Round(0xCE59313EC9F0) == 0x672C989F64F8 && F20(0x672C989F64F8);
    assert Round(0x672C989F64F8) == 0x33964C4FB27C && !F20(0x33964C4FB27C);
  }

  /** The key stream known so far, and the next octet of it. */
  lemma Longer(x: bv64, octets: seq<bv8>, y: bv64, c: bv8, z: bv64, longer: seq<bv8>)
    requires Advance(x, 8 * |octets|) == y && KeyBits(x, 8 * |octets|) == Unpack(octets)
    requires Advance(y, 8) == z && KeyBits(y, 8) == MsbFirst(c)
    requires longer == octets + [c]
    ensures Advance(x, 8 * |longer|) == z && KeyBits(x, 8 * |longer|) == Unpack(longer)
  {
    hide Advance, KeyBits, MsbFirst, Unpack;
    KeySplit(x, 8 * |octets|, 8);
    UnpackAppend(octets, [c]);
    UnpackOne(c);
  }

  lemma First4()
    ensures Advance(0x1AA0AFDA72F2, 32) == 0xEE134FD11AA0
    ensures KeyBits(0x1AA0AFDA72F2, 32) == Unpack([0xD7, 0x23, 0x7F, 0xCE])
  {
    Nothing(0x1AA0AFDA72F2);
    hide Advance, KeyBits, Unpack, MsbFirst;
    Octet0();
    Longer(0x1AA0AFDA72F2, [], 0x1AA0AFDA72F2, 0xD7, 0xD11AA0AFDA72, [0xD7]);
    Octet1();
    Longer(0x1AA0AFDA72F2, [0xD7], 0xD11AA0AFDA72, 0x23, 0x4FD11AA0AFDA, [0xD7, 0x23]);
    Octet2();
    Longer(0x1AA0AFDA72F2, [0xD7, 0x23], 0x4FD11AA0AFDA, 0x7F, 0x134FD11AA0AF, [0xD7, 0x23, 0x7F]);
    Octet3();
    Longer(0x1AA0AFDA72F2, [0xD7, 0x23, 0x7F], 0x134FD11AA0AF, 0xCE, 0xEE134FD11AA0, [0xD7, 0x23, 0x7F, 0xCE]);
  }

  lemma First8()
    ensures Advance(0x1AA0AFDA72F2, 64) == 0x4DC31DB7EE13
    ensures KeyBits(0x1AA0AFDA72F2, 64) == Unpack([0xD7, 0x23, 0x7F, 0xCE, 0x8C, 0xD0, 0x37, 0xA9])
  {
    First4();
    hide Advance, KeyBits, Unpack, MsbFirst;
    Octet4();
    Longer(0x1AA0AFDA72F2, [0xD7, 0x23, 0x7F, 0xCE], 0xEE134FD11AA0, 0x8C, 0xB7EE134FD11A, [0xD7, 0x23, 0x7F, 0xCE, 0x8C]);
    Octet5();
    Longer(0x1AA0AFDA72F2, [0xD7, 0x23, 0x7F, 0xCE, 0x8C], 0xB7EE134FD11A, 0xD0, 0x1DB7EE134FD1, [0xD7, 0x23, 0x7F, 0xCE, 0x8C, 0xD0]);
    Octet6();
    Longer(0x1AA0AFDA72F2, [0xD7, 0x23, 0x7F, 0xCE, 0x8C, 0xD0], 0x1DB7EE134FD1, 0x37, 0xC31DB7EE134F, [0xD7, 0x23, 0x7F, 0xCE, 0x8C, 0xD0, 0x37]);
    Octet7();
    Longer(0x1AA0AFDA72F2, [0xD7, 0x23, 0x7F, 0xCE, 0x8C, 0xD0, 0x37], 0xC31DB7EE134F, 0xA9, 0x4DC31DB7EE13, [0xD7, 0x23, 0x7F, 0xCE, 0x8C, 0xD0, 0x37, 0xA9]);
  }

  lemma First12()
    ensures Advance(0x1AA0AFDA72F2, 96) == 0xB27C033D4DC3
    ensures KeyBits(0x1AA0AFDA72F2, 96) == Unpack([0xD7, 0x23, 0x7F, 0xCE, 0x8C, 0xD0, 0x37, 0xA9, 0x57, 0x49, 0xC1, 0xE6])
  {
    First8();
    hide Advance, KeyBits, Unpack, MsbFirst;
    Octet8();
    Longer(0x1AA0AFDA72F2, [0xD7, 0x23, 0x7F, 0xCE, 0x8C, 0xD0, 0x37, 0xA9], 0x4DC31DB7EE13, 0x57, 0x3D4DC31DB7EE, [0xD7, 0x23, 0x7F, 0xCE, 0x8C, 0xD0, 0x37, 0xA9, 0x57]);
    Octet9();
    Longer(0x1AA0AFDA72F2, [0xD7, 0x23, 0x7F, 0xCE, 0x8C, 0xD0, 0x37, 0xA9, 0x57], 0x3D4DC31DB7EE, 0x49, 0x033D4DC31DB7, [0xD7, 0x23, 0x7F, 0xCE, 0x8C, 0xD0, 0x37, 0xA9, 0x57, 0x49]);
    Octet10();
    Longer(0x1AA0AFDA72F2, [0xD7, 0x23, 0x7F, 0xCE, 0x8C, 0xD0, 0x37, 0xA9, 0x57, 0x49], 0x033D4DC31DB7, 0xC1, 0x7C033D4DC31D, [0xD7, 0x23, 0x7F, 0xCE, 0x8C, 0xD0, 0x37, 0xA9, 0x57, 0x49, 0xC1]);
    Octet11();
    Longer(0x1AA0AFDA72F2, [0xD7, 0x23, 0x7F, 0xCE, 0x8C, 0xD0, 0x37, 0xA9, 0x57, 0x49, 0xC1], 0x7C033D4DC31D, 0xE6, 0xB27C033D4DC3, [0xD7, 0x23, 0x7F, 0xCE, 0x8C, 0xD0, 0x37, 0xA9, 0x57, 0x49, 0xC1, 0xE6]);
  }

  lemma First16()
    ensures Advance(0x1AA0AFDA72F2, 128) == 0x33964C4FB27C
    ensures KeyBits(0x1AA0AFDA72F2, 128) == Unpack([0xD7, 0x23, 0x7F, 0xCE, 0x8C, 0xD0, 0x37, 0xA9, 0x57, 0x49, 0xC1, 0xE6, 0x48, 0x00, 0x8A, 0xB6])
  {
    First12();
    hide Advance, KeyBits, Unpack, MsbFirst;
    Octet12();
    Longer(0x1AA0AFDA72F2, [0xD7, 0x23, 0x7F, 0xCE, 0x8C, 0xD0, 0x37, 0xA9, 0x57, 0x49, 0xC1, 0xE6], 0xB27C033D4DC3, 0x48, 0x4FB27C033D4D, [0xD7, 0x23, 0x7F, 0xCE, 0x8C, 0xD0, 0x37, 0xA9, 0x57, 0x49, 0xC1, 0xE6, 0x48]);
    Octet13();
    Longer(0x1AA0AFDA72F2, [0xD7, 0x23, 0x7F, 0xCE, 0x8C, 0xD0, 0x37, 0xA9, 0x57, 0x49, 0xC1, 0xE6, 0x48], 0x4FB27C033D4D, 0x00, 0x4C4FB27C033D, [0xD7, 0x23, 0x7F, 0xCE, 0x8C, 0xD0, 0x37, 0xA9, 0x57, 0x49, 0xC1, 0xE6, 0x48, 0x00]);
    Octet14();
    Longer(0x1AA0AFDA72F2, [0xD7, 0x23, 0x7F, 0xCE, 0x8C, 0xD0, 0x37, 0xA9, 0x57, 0x49, 0xC1, 0xE6, 0x48, 0x00], 0x4C4FB27C033D, 0x8A, 0x964C4FB27C03, [0xD7, 0x23, 0x7F, 0xCE, 0x8C, 0xD0, 0x37, 0xA9, 0x57, 0x49, 0xC1, 0xE6, 0x48, 0x00, 0x8A]);
    Octet15();
    Longer(0x1AA0AFDA72F2, [0xD7, 0x23, 0x7F, 0xCE, 0x8C, 0xD0, 0x37, 0xA9, 0x57, 0x49, 0xC1, 0xE6, 0x48, 0x00, 0x8A], 0x964C4FB27C03, 0xB6, 0x33964C4FB27C, [0xD7, 0x23, 0x7F, 0xCE, 0x8C, 0xD0, 0x37, 0xA9, 0x57, 0x49, 0xC1, 0xE6, 0x48, 0x00, 0x8A, 0xB6]);
  }

  lemma Nothing(x: bv64)
    ensures Advance(x, 0) == x && KeyBits(x, 0) == Unpack([])
  {
  }

  /** Key, serial number and initial vector of the original, and the sixteen octets it must print. */
  lemma SourceVector()
    ensures var x := Init(Word48([0x4F, 0x4E, 0x4D, 0x49, 0x4B, 0x52]), Word32([0x49, 0x43, 0x57, 0x69]),
                          Word32([0x65, 0x6E, 0x45, 0x72]));
      KeyBits(x, 128) == Unpack([0xD7, 0x23, 0x7F, 0xCE, 0x8C, 0xD0, 0x37, 0xA9,
                                 0x57, 0x49, 0xC1, 0xE6, 0x48, 0x00, 0x8A, 0xB6])
  {
    hide Word48, Word32, Init, KeyBits, Unpack, Advance;
    Words();
    Initialised();
    First16();
  }

  lemma Key64(x: bv64, a: seq<bv8>, b: seq<bv8>)
    requires |a| == |b| == 4 && KeyBits(x, 32) == Unpack(a) && KeyBits(x, 64) == Unpack(a + b)
    ensures KeyBits(Advance(x, 32), 32) == Unpack(b)
  {
    hide KeyBits, Unpack, Advance;
    KeySplit(x, 32, 32);
    UnpackAppend(a, b);
    assert KeyBits(x, 64)[32..] == KeyBits(Advance(x, 32), 32);
    assert (Unpack(a) + Unpack(b))[32..] == Unpack(b);
  }

  /** The key stream after the authenticator. */
  lemma SecondWord()
    ensures KeyBits(Advance(0x1AA0AFDA72F2, 32), 32) == Unpack([0x8C, 0xD0, 0x37, 0xA9])
  {
    hide KeyBits, Unpack, Advance;
    First4();
    First8();
    var a, b: seq<bv8> := [0xD7, 0x23, 0x7F, 0xCE], [0x8C, 0xD0, 0x37, 0xA9];
    assert a + b == [0xD7, 0x23, 0x7F, 0xCE, 0x8C, 0xD0, 0x37, 0xA9];
    Key64(0x1AA0AFDA72F2, a, b);
  }

  /**
   * The same numbers as a handshake: a tag with that serial number, and that key in
   * sectors 1 and 2, accepts 65 6E 45 72 and the authenticator 28 DC 80 31, and
   * answers with sector 3 masked by 8C D0 37 A9.
   */
  lemma KnownHandshake(t: Tag)
    requires ValidTag(t) && !t.crypto && t.sectors[0] == [0x49, 0x43, 0x57, 0x69]
    requires t.sectors[1] == [0x4D, 0x49, 0x4B, 0x52] && t.sectors[2][2..4] == [0x4F, 0x4E]
    ensures var rx := Unpack([0x65, 0x6E, 0x45, 0x72]) + Unpack([0x28, 0xDC, 0x80, 0x31]);
      var (t', answer) := TagStep(t, rx);
      t'.crypto && answer == Xor(Unpack(t.sectors[3]), Unpack([0x8C, 0xD0, 0x37, 0xA9]))
  {
    hide Word48, Word32, Init, KeyBits, Unpack, Advance, Pack, Not;
    var a, b: seq<bv8> := [0x65, 0x6E, 0x45, 0x72], [0x28, 0xDC, 0x80, 0x31];
    var rx := Unpack(a) + Unpack(b);
    assert rx[..32] == Unpack(a) && rx[32..] == Unpack(b);
    PackUnpack(a);
    assert KeyOctets(t.sectors) == [0x4F, 0x4E, 0x4D, 0x49, 0x4B, 0x52];
    Words();
    Initialised();
    First4();
    Authenticator();
    SecondWord();
  }

  lemma Authenticator()
    ensures Unpack([0x28, 0xDC, 0x80, 0x31]) == Not(Unpack([0xD7, 0x23, 0x7F, 0xCE]))
  {
  }
}
