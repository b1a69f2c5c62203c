/** Disk blocks as bytes, and the little-endian words in them. */
module DiskBlocks {
  import opened Common

  const BSIZE: nat := 512
  const WORDS: nat := 128

  type Byte = x: int | 0 <= x < 256
  type Block = s: seq<Byte> | |s| == BSIZE witness seq(BSIZE, i => 0)

  function Zero(): Block {
    seq(BSIZE, i => 0)
  }

  function Join(a: int, b: int, c: int, d: int): int {
    a + 256 * b + 65536 * c + 16777216 * d
  }

  /** The little-endian word `j` of a block. */
  function Word(s: Block, j: nat): nat
    requires j < WORDS
  {
    Join(s[4 * j], s[4 * j + 1], s[4 * j + 2], s[4 * j + 3])
  }

  function WithWord(s: Block, j: nat, v: nat): Block
    requires j < WORDS
  {
    s[4 * j := v % 256][4 * j + 1 := v / 256 % 256][4 * j + 2 := v / 65536 % 256][4 * j + 3 := v / 16777216 % 256]
  }

  lemma BytesJoin(v: nat)
    requires v < UINT
    ensures Join(v % 256, v / 256 % 256, v / 65536 % 256, v / 16777216 % 256) == v
  {
    assert v / 65536 == v / 256 / 256 && v / 16777216 == v / 65536 / 256;
  }

  /** The bytes of a word, the least significant first. */
  lemma WordBytes(s: Block, j: nat)
    requires j < WORDS
    ensures var w := Word(s, j);
            && s[4 * j] == w % 256 && s[4 * j + 1] == w / 256 % 256
            && s[4 * j + 2] == w / 65536 % 256 && s[4 * j + 3] == w / 16777216
  {
    JoinBytes(s[4 * j], s[4 * j + 1], s[4 * j + 2], s[4 * j + 3]);
  }

  lemma JoinBytes(a: Byte, b: Byte, c: Byte, d: Byte)
    ensures var w := Join(a, b, c, d);
            w % 256 == a && w / 256 % 256 == b && w / 65536 % 256 == c && w / 16777216 == d
  {
    var w := Join(a, b, c, d);
    assert w / 256 == b + 256 * c + 65536 * d;
    assert w / 65536 == c + 256 * d;
  }

  lemma WordsApart(s: Block, j: nat, v: nat, k: nat)
    requires j < WORDS && k < WORDS && v < UINT
    ensures Word(WithWord(s, j, v), k) == if k == j then v else Word(s, k)
  {
    BytesJoin(v);
    var t := WithWord(s, j, v);
    if k != j {
      assert t[4 * k] == s[4 * k] && t[4 * k + 1] == s[4 * k + 1];
      assert t[4 * k + 2] == s[4 * k + 2] && t[4 * k + 3] == s[4 * k + 3];
    } else {
      assert t[4 * k] == v % 256 && t[4 * k + 1] == v / 256 % 256;
      assert t[4 * k + 2] == v / 65536 % 256 && t[4 * k + 3] == v / 16777216 % 256;
    }
  }
}
