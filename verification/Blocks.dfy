/** Disk sectors.  A 512-byte sector is kept as the 128 little-endian 32-bit words
    the kernel overlays on it for the log header and for index blocks; file data
    is read and written as the bytes of those words. */
module Blocks {

  const BSIZE: nat := 512
  const WORDS: nat := 128    // BSIZE / sizeof(uint)

  type Byte = x: int | 0 <= x < 256
  type Word = x: int | 0 <= x < 0x1_0000_0000

  type Words = s: seq<Word> | |s| == WORDS witness seq(128, _ => 0)

  datatype Block = Block(words: Words)

  /** A disk (or any array of sectors). */
  type Disk = seq<Block>

  /** A sector of zeros. */
  function Zero(): (b: Block)
    ensures forall k :: 0 <= k < WORDS ==> b.words[k] == 0
  {
    Block(seq(WORDS, _ => 0))
  }

  function GetWord(b: Block, k: nat): (w: Word)
    requires k < WORDS
  {
    b.words[k]
  }

  function SetWord(b: Block, k: nat, w: Word): (r: Block)
    requires k < WORDS
  {
    Block(b.words[k := w])
  }

  /** Byte i of a little-endian word. */
  function WordByte(w: Word, i: nat): (x: Byte)
    requires i < 4
  {
    if i == 0 then w % 0x100
    else if i == 1 then w / 0x100 % 0x100
    else if i == 2 then w / 0x1_0000 % 0x100
    else w / 0x100_0000
  }

  /** The bytes make up the word, the lowest first. */
  lemma WordIsBytes(w: Word)
    ensures w == WordByte(w, 0) + 0x100 * WordByte(w, 1) + 0x1_0000 * WordByte(w, 2) + 0x100_0000 * WordByte(w, 3)
  {
  }

  function ByteAt(b: Block, i: nat): (x: Byte)
    requires i < BSIZE
  {
    WordByte(b.words[i / 4], i % 4)
  }

  function MakeWord(b0: Byte, b1: Byte, b2: Byte, b3: Byte): (w: Word)
    ensures WordByte(w, 0) == b0 && WordByte(w, 1) == b1 && WordByte(w, 2) == b2 && WordByte(w, 3) == b3
  {
    var x0: int, x1: int, x2: int, x3: int := b0, b1, b2, b3;
    var w := x0 + 0x100 * (x1 + 0x100 * (x2 + 0x100 * x3));
    assert w / 0x100 == x1 + 0x100 * (x2 + 0x100 * x3);
    assert w / 0x1_0000 == x2 + 0x100 * x3;
    assert w / 0x100_0000 == x3;
    w
  }

  function ToBytes(b: Block): (s: seq<Byte>)
    ensures |s| == BSIZE && forall i :: 0 <= i < BSIZE ==> s[i] == ByteAt(b, i)
  {
    seq(BSIZE, i requires 0 <= i < BSIZE => ByteAt(b, i))
  }

  /** Four bytes to a word. */
  function Pack(s: seq<Byte>): (w: seq<Word>)
    requires |s| % 4 == 0
    ensures |w| == |s| / 4
    ensures forall i {:trigger s[i]} :: 0 <= i < |s| ==> WordByte(w[i / 4], i % 4) == s[i]
  {
    if s == [] then []
    else
      var rest := Pack(s[4..]);
      var w := [MakeWord(s[0], s[1], s[2], s[3])] + rest;
      PackStep(s, rest, w);
      w
  }

  lemma PackStep(s: seq<Byte>, rest: seq<Word>, w: seq<Word>)
    requires |s| % 4 == 0 && |s| >= 4 && |rest| == |s| / 4 - 1
    requires w == [MakeWord(s[0], s[1], s[2], s[3])] + rest
    requires forall i {:trigger s[4..][i]} :: 0 <= i < |s| - 4 ==> WordByte(rest[i / 4], i % 4) == s[4..][i]
    ensures forall i {:trigger s[i]} :: 0 <= i < |s| ==> WordByte(w[i / 4], i % 4) == s[i]
  {
    forall i | 0 <= i < |s| ensures WordByte(w[i / 4], i % 4) == s[i] {
      if i >= 4 {
        assert s[i] == s[4..][i - 4];
        assert (i - 4) / 4 == i / 4 - 1 && (i - 4) % 4 == i % 4;
      }
    }
  }

  function FromBytes(s: seq<Byte>): (b: Block)
    requires |s| == BSIZE
    ensures forall i {:trigger ByteAt(b, i)} :: 0 <= i < BSIZE ==> ByteAt(b, i) == s[i]
  {
    Block(Pack(s))
  }

  function Overlay(t: seq<Byte>, off: nat, src: seq<Byte>): (s: seq<Byte>)
    requires off + |src| <= |t|
    ensures |s| == |t| && forall i :: 0 <= i < |t| ==> s[i] == (if off <= i < off + |src| then src[i - off] else t[i])
  {
    t[..off] + src + t[off + |src|..]
  }

  /** memmove(b->data + off, src, |src|). */
  function Splice(b: Block, off: nat, src: seq<Byte>): (r: Block)
    requires off + |src| <= BSIZE
    ensures forall i {:trigger ByteAt(r, i)} :: 0 <= i < BSIZE ==> ByteAt(r, i) == (if off <= i < off + |src| then src[i - off] else ByteAt(b, i))
  {
    var t := ToBytes(b);
    var s := Overlay(t, off, src);
    FromBytes(s)
  }

  lemma ZeroBytes(i: nat)
    requires i < BSIZE
    ensures ByteAt(Zero(), i) == 0
  {
  }
}
