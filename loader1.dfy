/** The program loader of the single-cycle interpreter
    (`init_program_from_fd`, project1/Vsim.c), working on the file's
    characters instead of a file descriptor. */
module Loader1 {
  import opened Word32
  import opened BinText

  /** `struct program` as the loader leaves it; the register file is all zeros. */
  datatype Image = Image(mem: seq<Word>, pc: int, memSize: int, memLower: int, memData: int, memUpper: int)

  datatype Loaded = Loaded(image: Image) | NoBreak

  /** Index of the first word equal to 127 (the encoding of `break`), or `|ws|`. */
  function FirstBreak(ws: seq<Word>): (k: nat)
    ensures k <= |ws|
  {
    if ws == [] then 0 else if ws[0] == 127 then 0 else 1 + FirstBreak(ws[1..])
  }

  /** `FirstBreak` finds a 127 word, and misses none before it. */
  lemma {:induction false} FirstBreakIsFirst(ws: seq<Word>)
    ensures FirstBreak(ws) < |ws| ==> ws[FirstBreak(ws)] == 127
    ensures forall j :: 0 <= j < FirstBreak(ws) ==> ws[j] != 127
  {
    if ws != [] && ws[0] != 127 {
      FirstBreakIsFirst(ws[1..]);
      forall j | 0 <= j < FirstBreak(ws)
        ensures ws[j] != 127
      {
        if j > 0 {
          assert ws[j] == ws[1..][j - 1];
        }
      }
    }
  }

  /** `mem_data` after the words `ws`: the address after the first 127 word, 0 while there is none. */
  function BreakAddr(ws: seq<Word>): int
  {
    if FirstBreak(ws) < |ws| then 256 + 4 * FirstBreak(ws) + 4 else 0
  }

  /** The result once the words `ws` are read into a zeroed buffer of `cap` words. */
  function Place(ws: seq<Word>, cap: nat): (r: Loaded)
    requires |ws| <= cap
    ensures r.Loaded? ==> |r.image.mem| == cap
  {
    if BreakAddr(ws) == 0 then NoBreak
    else Loaded(Image(ws + Zeros(cap - |ws|), 256, 4 * |ws|, 256, BreakAddr(ws), 256 + 4 * |ws|))
  }

  /** What `init_program_from_fd` produces for a file with contents `s`:
      the buffer holds `st_size / 8` bytes, that is `|s| / 32` words. */
  function Load(s: seq<char>): Loaded
  {
    Place(Scan(s, |s|).words, |s| / 32)
  }

  /** The loop invariant of `init_program_from_fd` after `i` characters:
      the fold of those characters is in `mem_size`, `bitcount` and `word`,
      the buffer holds the stored words followed by zeros, and `mem_data`
      is up to date. */
  predicate Loading(s: seq<char>, i: nat, ws: seq<Word>, bitcount: nat, word: Word,
                    mem: seq<Word>, memSize: int, memData: int, cap: nat)
  {
    && i <= |s| && cap == |s| / 32
    && Scan(s, i) == Acc(ws, bitcount, word)
    && memSize == 4 * |ws| && |ws| <= cap && mem == ws + Zeros(cap - |ws|)
    && memData == BreakAddr(ws)
  }

  lemma {:induction false} SkipChar(s: seq<char>, i: nat, ws: seq<Word>, bitcount: nat, word: Word,
                 mem: seq<Word>, memSize: int, memData: int, cap: nat)
    requires i < |s| && !IsBit(s[i])
    requires Loading(s, i, ws, bitcount, word, mem, memSize, memData, cap)
    ensures Loading(s, i + 1, ws, bitcount, word, mem, memSize, memData, cap)
  {
  }

  lemma {:induction false} ShiftChar(s: seq<char>, i: nat, ws: seq<Word>, bitcount: nat, word: Word, word': Word,
                  mem: seq<Word>, memSize: int, memData: int, cap: nat)
    requires i < |s| && IsBit(s[i]) && word' == ShiftIn(word, s[i]) && bitcount + 1 < 32
    requires Loading(s, i, ws, bitcount, word, mem, memSize, memData, cap)
    ensures Loading(s, i + 1, ws, bitcount + 1, word', mem, memSize, memData, cap)
  {
  }

  /** The 32nd bit of a word: it is stored at byte offset `mem_size`,
      which lies inside the buffer. */
  lemma {:induction false} StoreWord(s: seq<char>, i: nat, ws: seq<Word>, word: Word, word': Word,
                  mem: seq<Word>, memSize: int, memData: int, cap: nat)
    requires i < |s| && IsBit(s[i]) && word' == ShiftIn(word, s[i])
    requires Loading(s, i, ws, 31, word, mem, memSize, memData, cap)
    ensures memSize / 4 == |ws| < cap
    ensures Loading(s, i + 1, ws + [word'], 0, 0, mem[memSize / 4 := word'], memSize + 4,
                    if memData == 0 && word' == 127 then memSize + 256 + 4 else memData, cap)
  {
    PadUpdate(ws, word', cap - |ws|);
    BreakAddrSnoc(ws, word');
  }

  /** The loader loop of `init_program_from_fd`. */
  method InitProgram(s: seq<char>) returns (r: Loaded)
    ensures r == Load(s)
  {
    var cap := |s| / 32;
    var mem := new Word[cap](_ => 0);
    var bitcount: nat := 0;
    var word: Word := 0;
    var memSize := 0;
    var memData := 0;
    ghost var ws: seq<Word> := [];
    for i := 0 to |s|
      invariant Loading(s, i, ws, bitcount, word, mem[..], memSize, memData, cap)
    {
      var c := s[i];
      ghost var word0 := word;
      if c == '0' {
        word := Wrap(2 * word);
      } else if c == '1' {
        word := Wrap(2 * word + 1);
      } else {
        SkipChar(s, i, ws, bitcount, word, mem[..], memSize, memData, cap);
        continue;
      }
      bitcount := bitcount + 1;
      if bitcount < 32 {
        ShiftChar(s, i, ws, bitcount - 1, word0, word, mem[..], memSize, memData, cap);
        continue;
      }
      StoreWord(s, i, ws, word0, word, mem[..], memSize, memData, cap);
      var addr := memSize + 256;
      mem[memSize / 4] := word;
      if memData == 0 && word == 127 {
        memData := addr + 4;
      }
      ws := ws + [word];
      bitcount := 0;
      word := 0;
      memSize := memSize + 4;
    }
    Finish(s, ws, mem[..], memSize, memData);
    if memData == 0 {
      return NoBreak;
    }
    r := Loaded(Image(mem[..], 256, memSize, 256, memData, memSize + 256));
  }

  lemma {:induction false} Finish(s: seq<char>, ws: seq<Word>, mem: seq<Word>, memSize: int, memData: int)
    requires Loading(s, |s|, ws, Scan(s, |s|).count, Scan(s, |s|).word, mem, memSize, memData, |s| / 32)
    ensures Load(s) == if memData == 0 then NoBreak else Loaded(Image(mem, 256, memSize, 256, memData, memSize + 256))
  {
    assert Load(s) == Place(ws, |s| / 32);
  }

  lemma {:induction false} BreakAddrSnoc(ws: seq<Word>, w: Word)
    ensures BreakAddr(ws + [w]) == if BreakAddr(ws) != 0 then BreakAddr(ws) else if w == 127 then 256 + 4 * |ws| + 4 else 0
  {
    FirstBreakSnoc(ws, w);
  }

  lemma {:induction false} FirstBreakSnoc(ws: seq<Word>, w: Word)
    ensures FirstBreak(ws + [w]) == if FirstBreak(ws) < |ws| || w == 127 then FirstBreak(ws) else |ws| + 1
  {
    if ws != [] {
      assert (ws + [w])[1..] == ws[1..] + [w];
      FirstBreakSnoc(ws[1..], w);
    }
  }

  /** The loaded words are the complete 32-bit groups of the '0'/'1'
      characters of the file, and loading fails exactly when none of them
      is the 127 word. */
  lemma {:induction false} LoadIsWords(s: seq<char>)
    ensures Load(s) == Place(Words(Bits(s)), |s| / 32)
    ensures Load(s).NoBreak? <==> 127 !in Words(Bits(s))
  {
    ScanIsWords(s, |s|);
    assert s[..|s|] == s;
    FirstBreakIsFirst(Words(Bits(s)));
  }

  /** A file whose bit characters spell the words `ws` exactly and that
      holds nothing else loads with a buffer of exactly those words. */
  lemma {:induction false} LoadExact(t: seq<char>, ws: seq<Word>)
    requires Words(Bits(t)) == ws && |t| == 32 * |ws|
    ensures Load(t) == if 127 in ws then
        Loaded(Image(ws, 256, 4 * |ws|, 256, 256 + 4 * FirstBreak(ws) + 4, 256 + 4 * |ws|))
      else NoBreak
  {
    LoadIsWords(t);
    assert |t| / 32 == |ws|;
    assert Load(t) == Place(ws, |ws|);
    assert ws + Zeros(0) == ws;
    FirstBreakIsFirst(ws);
    if 127 in ws {
      var j :| 0 <= j < |ws| && ws[j] == 127;
      assert FirstBreak(ws) <= j;
    }
  }

  /** A file that is the text of words `ws` (no separators) loads exactly
      those words, with `mem_data` just after the first 127 word. */
  lemma {:induction false} LoadText(ws: seq<Word>)
    ensures Load(Text(ws)) == if 127 in ws then
        Loaded(Image(ws, 256, 4 * |ws|, 256, 256 + 4 * FirstBreak(ws) + 4, 256 + 4 * |ws|))
      else NoBreak
  {
    BitsOfBits(Text(ws));
    WordsOfText(ws);
    LoadExact(Text(ws), ws);
  }

  /** Characters other than '0' and '1' are skipped: removing one changes
      neither the loaded words nor the data boundary. */
  lemma {:induction false} IgnoresNonBits(s1: seq<char>, c: char, s2: seq<char>)
    requires !IsBit(c)
    ensures Load(s1 + [c] + s2).NoBreak? == Load(s1 + s2).NoBreak?
    ensures Load(s1 + [c] + s2).Loaded? ==>
      var a, b := Load(s1 + [c] + s2).image, Load(s1 + s2).image;
      a.memData == b.memData && a.memUpper == b.memUpper && a.mem[..a.memSize / 4] == b.mem[..b.memSize / 4]
  {
    var t := s1 + [c] + s2;
    BitsPrefix(t, |s1| + 1);
    assert t[..|s1| + 1] == s1 + [c];
    assert t[|s1| + 1..] == s2;
    BitsSnoc(s1, c);
    BitsPrefix(s1 + s2, |s1|);
    assert (s1 + s2)[..|s1|] == s1;
    assert (s1 + s2)[|s1|..] == s2;
    LoadIsWords(t);
    LoadIsWords(s1 + s2);
    var ws := Words(Bits(t));
    assert (ws + Zeros(|t| / 32 - |ws|))[..|ws|] == ws;
    assert (ws + Zeros(|s1 + s2| / 32 - |ws|))[..|ws|] == ws;
  }
}
