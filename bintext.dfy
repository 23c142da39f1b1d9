/** The '0'/'1' text form of program words: `write_bin32` of project1 and
    the shift-in rule with which both loaders assemble words from the
    characters of a program file. */
module BinText {
  import opened Word32

  predicate IsBit(c: char)
  {
    c == '0' || c == '1'
  }

  predicate AllBits(s: seq<char>)
  {
    forall i :: 0 <= i < |s| ==> IsBit(s[i])
  }

  /** One loader step on a bit character: `'0'` gives `w << 1`, `'1'` gives
      `w << 1 | 1`; the shift drops bit 31. */
  function ShiftIn(w: Word, c: char): Word
    requires IsBit(c)
  {
    Wrap(2 * w + (if c == '1' then 1 else 0))
  }

  /** The word a run of bit characters shifts in to, starting from 0. */
  function Assemble(bits: seq<char>): Word
    requires AllBits(bits)
  {
    if bits == [] then 0 else ShiftIn(Assemble(bits[..|bits| - 1]), bits[|bits| - 1])
  }

  /** The characters of `s` that the loaders act on, in order. */
  function Bits(s: seq<char>): (b: seq<char>)
    ensures AllBits(b) && |b| <= |s|
  {
    if s == [] then []
    else if IsBit(s[|s| - 1]) then Bits(s[..|s| - 1]) + [s[|s| - 1]]
    else Bits(s[..|s| - 1])
  }

  /** The complete 32-bit groups of a bit string, each assembled most
      significant bit first; a trailing partial group yields no word. */
  function Words(b: seq<char>): (ws: seq<Word>)
    requires AllBits(b)
    ensures |ws| == |b| / 32
  {
    if |b| < 32 then [] else [Assemble(b[..32])] + Words(b[32..])
  }

  /** `write_bin32`'s output: character i is bit 31 - i of the word. */
  function Bin32(w: Word): (s: seq<char>)
    ensures |s| == 32 && AllBits(s)
  {
    seq(32, i requires 0 <= i < 32 => if w / Pow2(31 - i) % 2 == 1 then '1' else '0')
  }

  /** The text of a sequence of words, one `write_bin32` after another. */
  function Text(ws: seq<Word>): (s: seq<char>)
    ensures |s| == 32 * |ws| && AllBits(s)
  {
    if ws == [] then [] else Bin32(ws[0]) + Text(ws[1..])
  }

  /** write_bin32 (project1): emits bit 31 first. */
  method WriteBin32(word: Word) returns (bin: seq<char>)
    ensures bin == Bin32(word)
  {
    bin := [];
    for i := 0 to 32
      invariant bin == Bin32(word)[..i]
    {
      var bit := word / Pow2(31 - i) % 2;
      bin := bin + [if bit == 1 then '1' else '0'];
    }
  }

  /** After shifting in the first k characters of `write_bin32(w)`, the loader
      holds the top k bits of w. */
  lemma {:induction false} AssembleBin32Prefix(w: Word, k: nat)
    requires k <= 32
    ensures Assemble(Bin32(w)[..k]) == w / Pow2(32 - k)
  {
    if k == 0 {
      Pow2Is2To32();
      assert Bin32(w)[..0] == [];
      DivModUnique(w, TWO32, 0, w);
    } else {
      var b := Bin32(w)[..k];
      assert b[..k - 1] == Bin32(w)[..k - 1];
      AssembleBin32Prefix(w, k - 1);
      var y := w / Pow2(32 - k);
      DivPow2Succ(w, 32 - k);
      DivBounds(w, Pow2(32 - k));
      assert b[k - 1] == (if y % 2 == 1 then '1' else '0');
      assert 2 * (y / 2) + y % 2 == y;
      assert Assemble(b) == ShiftIn(y / 2, b[k - 1]);
      assert 0 <= y < TWO32;
      assert ShiftIn(y / 2, b[k - 1]) == Wrap(y);
    }
  }

  /** Round trip: the loader's shift-in rule rebuilds the word `write_bin32` printed. */
  lemma {:induction false} Bin32RoundTrip(w: Word)
    ensures Assemble(Bin32(w)) == w
  {
    AssembleBin32Prefix(w, 32);
    assert Bin32(w)[..32] == Bin32(w);
  }

  lemma {:induction false} BitsOfBits(b: seq<char>)
    requires AllBits(b)
    ensures Bits(b) == b
  {
    if b != [] {
      BitsOfBits(b[..|b| - 1]);
      assert b[..|b| - 1] + [b[|b| - 1]] == b;
    }
  }

  /** Loading the text of a word sequence gives back the words. */
  lemma {:induction false} WordsOfText(ws: seq<Word>)
    ensures Words(Text(ws)) == ws
  {
    if ws != [] {
      var t := Text(ws);
      assert t[..32] == Bin32(ws[0]);
      assert t[32..] == Text(ws[1..]);
      Bin32RoundTrip(ws[0]);
      WordsOfText(ws[1..]);
    }
  }

  // ---------------------------------------------------------------------
  // How the reference definitions grow by one character: the step a
  // character-at-a-time loader loop takes.

  lemma {:induction false} BitsSnoc(s: seq<char>, c: char)
    ensures Bits(s + [c]) == if IsBit(c) then Bits(s) + [c] else Bits(s)
  {
    assert (s + [c])[..|s|] == s;
  }

  /** The bits of a partial group still being shifted in. */
  function Pending(b: seq<char>): (p: seq<char>)
    requires AllBits(b)
    ensures AllBits(p) && |p| == |b| % 32
  {
    b[|b| - |b| % 32..]
  }

  lemma {:induction false} WordsSnoc(b: seq<char>, c: char)
    requires AllBits(b) && IsBit(c)
    ensures |b| % 32 == 31 ==> Words(b + [c]) == Words(b) + [ShiftIn(Assemble(Pending(b)), c)]
    ensures |b| % 32 != 31 ==> Words(b + [c]) == Words(b)
    decreases |b|
  {
    var b' := b + [c];
    if |b| < 32 {
      if |b| == 31 {
        assert b'[..32] == b';
        assert b'[..|b'| - 1] == b;
        assert Pending(b) == b;
      }
    } else {
      assert b'[..32] == b[..32];
      assert b'[32..] == b[32..] + [c];
      assert Pending(b) == Pending(b[32..]);
      WordsSnoc(b[32..], c);
    }
  }

  lemma {:induction false} PendingSnoc(b: seq<char>, c: char)
    requires AllBits(b) && IsBit(c)
    ensures |b| % 32 == 31 ==> Pending(b + [c]) == []
    ensures |b| % 32 != 31 ==> Pending(b + [c]) == Pending(b) + [c]
  {
  }

  lemma {:induction false} AssembleSnoc(p: seq<char>, c: char)
    requires AllBits(p) && IsBit(c)
    ensures Assemble(p + [c]) == ShiftIn(Assemble(p), c)
  {
    assert (p + [c])[..|p|] == p;
  }

  /** Words of a bit string cut at a group boundary. */
  lemma {:induction false} WordsAppend(b1: seq<char>, b2: seq<char>)
    requires AllBits(b1) && AllBits(b2) && |b1| % 32 == 0
    ensures Words(b1 + b2) == Words(b1) + Words(b2)
    decreases |b1|
  {
    if |b1| > 0 {
      var b := b1 + b2;
      assert b[..32] == b1[..32];
      assert b[32..] == b1[32..] + b2;
      assert Words(b1) == [Assemble(b1[..32])] + Words(b1[32..]);
      assert Words(b) == [Assemble(b[..32])] + Words(b[32..]);
      WordsAppend(b1[32..], b2);
    } else {
      assert b1 + b2 == b2;
    }
  }

  /** The bits of a prefix of `s` are a prefix of the bits of `s`. */
  lemma {:induction false} BitsPrefix(s: seq<char>, i: nat)
    requires i <= |s|
    ensures Bits(s) == Bits(s[..i]) + Bits(s[i..])
    decreases |s| - i
  {
    if i == |s| {
      assert s[..i] == s;
      assert s[i..] == [];
    } else {
      var c := s[i];
      var pre := if IsBit(c) then [c] else [];
      BitsPrefix(s, i + 1);
      assert s[..i + 1] == s[..i] + [c];
      BitsSnoc(s[..i], c);
      assert Bits(s[..i + 1]) == Bits(s[..i]) + pre;
      assert s[i..][1..] == s[i + 1..];
      CharBits(s[i..], c);
      assert Bits(s[i..]) == pre + Bits(s[i + 1..]);
      AppendAssoc(Bits(s[..i]), pre, Bits(s[i + 1..]));
    }
  }

  lemma {:induction false} AppendAssoc(a: seq<char>, b: seq<char>, c: seq<char>)
    ensures a + b + c == a + (b + c)
  {
  }

  lemma {:induction false} CharBits(t: seq<char>, c: char)
    requires t != [] && t[0] == c
    ensures Bits(t) == (if IsBit(c) then [c] else []) + Bits(t[1..])
    decreases |t|
  {
    if |t| == 1 {
      assert t[1..] == [];
      assert t[..0] == [];
    } else {
      var u := t[..|t| - 1];
      assert u[0] == c && u[1..] == t[1..|t| - 1];
      CharBits(u, c);
      assert t[1..][..|t[1..]| - 1] == t[1..|t| - 1];
    }
  }

  // ---------------------------------------------------------------------
  // The loaders' per-character rule as a left fold, and its agreement with
  // the reference definitions above.

  /** Loader state: the words stored so far, the bits of the current word
      shifted in so far, and the current word. */
  datatype Acc = Acc(words: seq<Word>, count: nat, word: Word)

  /** One character: a bit is shifted in; the 32nd bit completes a word,
      which is stored, and the count and the word start again from 0. */
  function Feed(a: Acc, c: char): Acc
  {
    if !IsBit(c) then a
    else if a.count + 1 < 32 then Acc(a.words, a.count + 1, ShiftIn(a.word, c))
    else Acc(a.words + [ShiftIn(a.word, c)], 0, 0)
  }

  /** The contents of a freshly `calloc`ed buffer of `n` words. */
  function Zeros(n: nat): (z: seq<Word>)
    ensures |z| == n && forall i :: 0 <= i < n ==> z[i] == 0
  {
    seq(n, _ => 0)
  }

  /** Storing the next word into a zero-filled buffer. */
  lemma {:induction false} PadUpdate(ws: seq<Word>, w: Word, k: nat)
    requires k > 0
    ensures (ws + Zeros(k))[|ws| := w] == ws + [w] + Zeros(k - 1)
    ensures |ws + [w]| <= |ws| + k
  {
    var a, a' := (ws + Zeros(k))[|ws| := w], ws + [w] + Zeros(k - 1);
    forall i | 0 <= i < |a|
      ensures a[i] == a'[i]
    {
      if i > |ws| {
        assert a'[i] == Zeros(k - 1)[i - |ws| - 1];
      }
    }
  }

  /** The loader state after the first `i` characters of `s`. */
  function Scan(s: seq<char>, i: nat): (r: Acc)
    requires i <= |s|
    ensures 32 * |r.words| + r.count <= i && r.count < 32
  {
    if i == 0 then Acc([], 0, 0) else Feed(Scan(s, i - 1), s[i - 1])
  }

  /** The fold computes the complete groups of the bits, and the pending group. */
  lemma {:induction false} ScanIsWords(s: seq<char>, i: nat)
    requires i <= |s|
    ensures Scan(s, i).words == Words(Bits(s[..i]))
    ensures Scan(s, i).count == |Bits(s[..i])| % 32
    ensures Scan(s, i).word == Assemble(Pending(Bits(s[..i])))
  {
    if i > 0 {
      var t, c := s[..i - 1], s[i - 1];
      assert s[..i] == t + [c];
      ScanIsWords(s, i - 1);
      BitsSnoc(t, c);
      if IsBit(c) {
        var b := Bits(t);
        WordsSnoc(b, c);
        PendingSnoc(b, c);
        AssembleSnoc(Pending(b), c);
      }
    }
  }

  /** The words stored after i characters are a prefix of those stored after j. */
  lemma {:induction false} ScanPrefix(s: seq<char>, i: nat, j: nat)
    requires i <= j <= |s|
    ensures Scan(s, i).words <= Scan(s, j).words
    decreases j - i
  {
    if i < j {
      ScanPrefix(s, i + 1, j);
    }
  }
}
