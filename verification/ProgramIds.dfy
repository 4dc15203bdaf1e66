/** The two program ids in the base-58 text by which they are declared. */
module ProgramIds {
  import opened Bytes
  import opened Identity
  import opened Addresses

  /** The number whose digits to base 256, most significant first, are the bytes. */
  function BigEndian(s: seq<Byte>): nat {
    if s == [] then 0 else 256 * BigEndian(s[..|s| - 1]) + s[|s| - 1]
  }

  /** The digits of base 58: no `0`, `O`, `I` or `l`. */
  function Digit(c: char): nat {
    if '1' <= c <= '9' then c as nat - '1' as nat
    else if 'A' <= c <= 'H' then 9 + c as nat - 'A' as nat
    else if 'J' <= c <= 'N' then 17 + c as nat - 'J' as nat
    else if 'P' <= c <= 'Z' then 22 + c as nat - 'P' as nat
    else if 'a' <= c <= 'k' then 33 + c as nat - 'a' as nat
    else if 'm' <= c <= 'z' then 44 + c as nat - 'm' as nat
    else 0
  }

  function Base58(s: string): nat {
    if s == "" then 0 else 58 * Base58(s[..|s| - 1]) + Digit(s[|s| - 1])
  }

  // ---- Four digits at a time ----------------------------------------------

  function Word(s: seq<Byte>, i: nat): nat
    requires i + 4 <= |s|
  {
    0x100_0000 * s[i] as nat + 0x1_0000 * s[i + 1] as nat + 0x100 * s[i + 2] as nat + s[i + 3] as nat
  }

  lemma OneByte(s: seq<Byte>, i: nat)
    requires i < |s|
    ensures BigEndian(s[..i + 1]) == 256 * BigEndian(s[..i]) + s[i]
  {
    assert s[..i + 1][..i] == s[..i];
  }

  lemma ReadWord(s: seq<Byte>, i: nat)
    requires i + 4 <= |s|
    ensures BigEndian(s[..i + 4]) == 0x1_0000_0000 * BigEndian(s[..i]) + Word(s, i)
  {
    OneByte(s, i);
    OneByte(s, i + 1);
    OneByte(s, i + 2);
    OneByte(s, i + 3);
  }

  lemma EightWords(s: seq<Byte>)
    requires |s| == 32
    ensures BigEndian(s) ==
            0x100000000000000000000000000000000000000000000000000000000 * Word(s, 0)
            + 0x1000000000000000000000000000000000000000000000000 * Word(s, 4)
            + 0x10000000000000000000000000000000000000000 * Word(s, 8)
            + 0x100000000000000000000000000000000 * Word(s, 12)
            + 0x1000000000000000000000000 * Word(s, 16)
            + 0x10000000000000000 * Word(s, 20)
            + 0x100000000 * Word(s, 24)
            + Word(s, 28)
  {
    hide BigEndian, Word, Base58;
    NoDigits();
    assert s[..0] == [] && s[..32] == s;
    ReadWord(s, 0);
    ReadWord(s, 4);
    ReadWord(s, 8);
    ReadWord(s, 12);
    ReadWord(s, 16);
    ReadWord(s, 20);
    ReadWord(s, 24);
    ReadWord(s, 28);
  }

  lemma NoDigits()
    ensures BigEndian([]) == 0 && Base58("") == 0
  {
  }

  lemma OneCharacter(s: string, c: char)
    ensures Base58(s + [c]) == 58 * Base58(s) + Digit(c)
  {
    hide Digit;
    assert (s + [c])[..|s|] == s;
  }

  lemma ReadQuad(s: string, t: string)
    requires |t| == 4
    ensures Base58(s + t) == 11316496 * Base58(s) + 195112 * Digit(t[0]) + 3364 * Digit(t[1])
                             + 58 * Digit(t[2]) + Digit(t[3])
  {
    hide Digit;
    OneCharacter(s, t[0]);
    OneCharacter(s + [t[0]], t[1]);
    OneCharacter(s + [t[0]] + [t[1]], t[2]);
    OneCharacter(s + [t[0]] + [t[1]] + [t[2]], t[3]);
    assert s + t == s + [t[0]] + [t[1]] + [t[2]] + [t[3]];
  }

  /** No two byte strings of one length are the same number. */
  lemma {:induction false} BigEndianInjective(s: seq<Byte>, t: seq<Byte>)
    requires |s| == |t| && BigEndian(s) == BigEndian(t)
    ensures s == t
  {
    if s != [] {
      var n := |s| - 1;
      BigEndianInjective(s[..n], t[..n]);
      assert s == s[..n] + [s[n]] && t == t[..n] + [t[n]];
    }
  }

  // ---- The two ids --------------------------------------------------------

  lemma {:induction false} EntrosText()
    ensures Base58("GZYw" + "Tp2o" + "zeuR" + "A5Go" + "f9vs" + "4ya9"
                   + "61aA" + "NcJB" + "dUzB" + "7LN6" + "q4b2") ==
            0xe73600da_707ebf19_907d32ec_8842a45f_b4d53263_a1496801_6db4e629_37e093d1
  {
    hide Base58;
    NoDigits();
    ReadQuad("", "GZYw");
    var t := "" + "GZYw";
    assert t == "GZYw" && Base58(t) == 0x2e5414;
    ReadQuad(t, "Tp2o");
    t := t + "Tp2o";
    assert Base58(t) == 0x1f3f_cf769754;
    ReadQuad(t, "zeuR");
    t := t + "zeuR";
    assert Base58(t) == 0x15_13ff76dd_c8c8de3c;
    ReadQuad(t, "A5Go");
    t := t + "A5Go";
    assert Base58(t) == 0xe37af78_c04e3581_9b27734c;
    ReadQuad(t, "f9vs");
    t := t + "f9vs";
    assert Base58(t) == 0x99706_6a30c60c_d2202c74_d2e32804;
    ReadQuad(t, "4ya9");
    t := t + "4ya9";
    assert Base58(t) == 0x677_f3f81eee_a980386a_be8b6a6f_92f90a1a;
    ReadQuad(t, "61aA");
    t := t + "61aA";
    assert Base58(t) == 0x4_5cf76212_b4c3199c_25dbaf1b_a29acc9e_44eb1deb;
    ReadQuad(t, "NcJB");
    t := t + "NcJB";
    assert Base58(t) == 0x2f1694e_e14e3868_59698ef1_79a1de9e_404a0c6f_4c0e02c8;
    ReadQuad(t, "dUzB");
    t := t + "dUzB";
    assert Base58(t) == 0x1fc30_144043bd_d71e1ddd_f66fd70b_8fe20d16_69cf16c4_178df1e0;
    ReadQuad(t, "7LN6");
    t := t + "7LN6";
    assert Base58(t) == 0x156_c7d9dbde_35580e78_dd32708d_7714ecd5_8c080e0a_db13c38a_e7e65963;
    ReadQuad(t, "q4b2");
    t := t + "q4b2";
    assert Base58(t) == 0xe73600da_707ebf19_907d32ec_8842a45f_b4d53263_a1496801_6db4e629_37e093d1;
  }

  lemma {:induction false} PluginText()
    ensures Base58("99nw" + "Xzcu" + "gse3" + "x8kx" + "E9v6" + "mxZi"
                   + "q8T9" + "gHDo" + "znaa" + "G6qc" + "w534") ==
            0x791e1631_2119efce_374a1da9_dc8f2348_b29a97e5_e80a637d_95fce22c_b93f8467
  {
    hide Base58;
    NoDigits();
    ReadQuad("", "99nw");
    var t := "" + "99nw";
    assert t == "99nw" && Base58(t) == 0x1844c8;
    ReadQuad(t, "Xzcu");
    t := t + "Xzcu";
    assert Base58(t) == 0x105e_9ebbba56;
    ReadQuad(t, "gse3");
    t := t + "gse3";
    assert Base58(t) == 0xb_0aa39d4f_fae678e4;
    ReadQuad(t, "x8kx");
    t := t + "x8kx";
    assert Base58(t) == 0x7729cce_ed457466_a7edc6c9;
    ReadQuad(t, "E9v6");
    t := t + "E9v6";
    assert Base58(t) == 0x5060a_46290df0_f8f979a7_bd656abf;
    ReadQuad(t, "mxZi");
    t := t + "mxZi";
    assert Base58(t) == 0x363_744c75a3_7ee3feed_e381359d_185397f5;
    ReadQuad(t, "q8T9");
    t := t + "q8T9";
    assert Base58(t) == 0x2_491c8f2d_fa201827_495b8c6c_8edadb6c_1c1559b8;
    ReadQuad(t, "gHDo");
    t := t + "gHDo";
    assert Base58(t) == 0x18aaabd_116f1277_8cb95889_cc8e1e5e_4098a414_770be4be;
    ReadQuad(t, "znaa");
    t := t + "znaa";
    assert Base58(t) == 0x10a35_85142739_8ebe7e19_89001755_3abafe19_6e2c11b8_2aa6bbb7;
    ReadQuad(t, "G6qc");
    t := t + "G6qc";
    assert Base58(t) == 0xb3_8fec37d1_4a70410c_60472f3d_4d0983a6_c27d16a6_9277385b_76675b7f;
    ReadQuad(t, "w534");
    t := t + "w534";
    assert Base58(t) == 0x791e1631_2119efce_374a1da9_dc8f2348_b29a97e5_e80a637d_95fce22c_b93f8467;
  }

  /** The key of the program that owns identity accounts is the one whose base-58 text is
      `GZYwTp2ozeuRA5Gof9vs4ya961aANcJBdUzB7LN6q4b2`. */
  lemma {:induction false} EntrosIdAsWritten(k: Key)
    ensures k == ENTROS_ANCHOR_PROGRAM_ID <==>
              BigEndian(k) == Base58("GZYw" + "Tp2o" + "zeuR" + "A5Go" + "f9vs" + "4ya9"
                                     + "61aA" + "NcJB" + "dUzB" + "7LN6" + "q4b2")
  {
    hide BigEndian, Base58;
    EightWords(ENTROS_ANCHOR_PROGRAM_ID);
    EntrosText();
    if BigEndian(k) == BigEndian(ENTROS_ANCHOR_PROGRAM_ID) {
      BigEndianInjective(k, ENTROS_ANCHOR_PROGRAM_ID);
    }
  }

  /** The plugin is declared as `99nwXzcugse3x8kxE9v6mxZiq8T9gHDoznaaG6qcw534`. */
  lemma {:induction false} PluginIdAsDeclared(k: Key)
    ensures k == PLUGIN_ID <==>
              BigEndian(k) == Base58("99nw" + "Xzcu" + "gse3" + "x8kx" + "E9v6" + "mxZi"
                                     + "q8T9" + "gHDo" + "znaa" + "G6qc" + "w534")
  {
    hide BigEndian, Base58;
    EightWords(PLUGIN_ID);
    PluginText();
    if BigEndian(k) == BigEndian(PLUGIN_ID) {
      BigEndianInjective(k, PLUGIN_ID);
    }
  }
}
