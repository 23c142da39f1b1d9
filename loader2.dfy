/** The program loader of the pipelined simulator (`program_load`,
    project2/Vsim.c), working on the file's characters instead of a file
    name. */
module Loader2 {
  import opened Word32
  import opened BinText

  /** What `program_load` leaves in the globals `mem`, `mem_data` and `mem_end`. */
  datatype Image = Image(mem: seq<Word>, memData: int, memEnd: int)

  /** The number of words up to and including the last 127 word (the
      encoding of `break`), or 0 when there is none. */
  function LastBreakEnd(ws: seq<Word>): (n: nat)
    ensures n <= |ws|
  {
    if ws == [] then 0
    else if ws[|ws| - 1] == 127 then |ws|
    else LastBreakEnd(ws[..|ws| - 1])
  }

  /** `LastBreakEnd` stops right after a 127 word, and no 127 word follows it. */
  lemma {:induction false} LastBreakIsLast(ws: seq<Word>)
    ensures LastBreakEnd(ws) > 0 ==> ws[LastBreakEnd(ws) - 1] == 127
    ensures forall k :: LastBreakEnd(ws) <= k < |ws| ==> ws[k] != 127
  {
    if ws != [] && ws[|ws| - 1] != 127 {
      var p := ws[..|ws| - 1];
      LastBreakIsLast(p);
      forall k | LastBreakEnd(ws) <= k < |ws|
        ensures ws[k] != 127
      {
        if k < |ws| - 1 {
          assert ws[k] == p[k];
        }
      }
    }
  }

  /** `mem_data` after the words `ws`: the address after the LAST 127
      word, and 0 (the global's initial value) when there is none. */
  function LastBreakAddr(ws: seq<Word>): int
  {
    if LastBreakEnd(ws) == 0 then 0 else 256 + 4 * LastBreakEnd(ws)
  }

  lemma {:induction false} LastBreakSnoc(ws: seq<Word>, w: Word)
    ensures LastBreakAddr(ws + [w]) == if w == 127 then 256 + 4 * (|ws| + 1) else LastBreakAddr(ws)
  {
    assert (ws + [w])[..|ws|] == ws;
  }

  /** The globals once the words `ws` are read into a zeroed buffer of `cap` words. */
  function Place(ws: seq<Word>, cap: nat): (img: Image)
    requires |ws| <= cap
    ensures |img.mem| == cap
  {
    Image(ws + Zeros(cap - |ws|), LastBreakAddr(ws), 256 + 4 * |ws|)
  }

  /** What `program_load` produces for a file with contents `s`: the
      buffer holds `st_size >> 5` words. */
  function Load(s: seq<char>): Image
  {
    Place(Scan(s, |s|).words, |s| / 32)
  }

  /** Once the buffer is full the remaining characters cannot complete
      another word, so stopping there loses nothing. */
  lemma {:induction false} StopWhenFull(s: seq<char>, i: nat)
    requires i <= |s| && |Scan(s, i).words| == |s| / 32
    ensures Scan(s, |s|).words == Scan(s, i).words
  {
    ScanPrefix(s, i, |s|);
  }

  /** The loop invariant of `program_load` after `i` characters: the fold
      of those characters is in `cur`, `nbits` and `value`, the buffer holds
      the stored words followed by zeros, and `mem_data` is up to date. */
  predicate Loading(s: seq<char>, i: nat, ws: seq<Word>, nbits: int, value: Word,
                    mem: seq<Word>, memData: int, cur: int, memSize: nat)
  {
    && i <= |s| && memSize == |s| / 32
    && 0 < nbits <= 32 && Scan(s, i) == Acc(ws, 32 - nbits, value)
    && cur == |ws| <= memSize && mem == ws + Zeros(memSize - |ws|)
    && memData == LastBreakAddr(ws)
  }

  lemma {:induction false} SkipChar(s: seq<char>, i: nat, ws: seq<Word>, nbits: int, value: Word,
                 mem: seq<Word>, memData: int, cur: int, memSize: nat)
    requires i < |s| && !IsBit(s[i])
    requires Loading(s, i, ws, nbits, value, mem, memData, cur, memSize)
    ensures Loading(s, i + 1, ws, nbits, value, mem, memData, cur, memSize)
  {
  }

  lemma {:induction false} ShiftChar(s: seq<char>, i: nat, ws: seq<Word>, nbits: int, value: Word, value': Word,
                  mem: seq<Word>, memData: int, cur: int, memSize: nat)
    requires i < |s| && IsBit(s[i]) && value' == ShiftIn(value, s[i]) && nbits > 1
    requires Loading(s, i, ws, nbits, value, mem, memData, cur, memSize)
    ensures Loading(s, i + 1, ws, nbits - 1, value', mem, memData, cur, memSize)
  {
  }

  /** The 32nd bit: the word fits in the buffer, and if the buffer is now
      full the rest of the file adds no word. */
  lemma {:induction false} StoreWord(s: seq<char>, i: nat, ws: seq<Word>, value: Word, value': Word,
                  mem: seq<Word>, memData: int, cur: int, memSize: nat)
    requires i < |s| && IsBit(s[i]) && value' == ShiftIn(value, s[i])
    requires Loading(s, i, ws, 1, value, mem, memData, cur, memSize)
    ensures cur < memSize
    ensures Loading(s, i + 1, ws + [value'], 32, 0, mem[cur := value'],
                    if value' == 127 then (cur + 1) * 4 + 256 else memData, cur + 1, memSize)
    ensures cur + 1 == memSize ==> Scan(s, |s|).words == ws + [value']
  {
    PadUpdate(ws, value', memSize - |ws|);
    LastBreakSnoc(ws, value');
    if cur + 1 == memSize {
      StopWhenFull(s, i + 1);
    }
  }

  lemma {:induction false} Finish(s: seq<char>, ws: seq<Word>, mem: seq<Word>, memData: int, cur: int, memSize: nat)
    requires Scan(s, |s|).words == ws && cur == |ws| <= memSize && memSize == |s| / 32
    requires mem == ws + Zeros(memSize - |ws|) && memData == LastBreakAddr(ws)
    ensures Image(mem, memData, cur * 4 + 256) == Load(s)
  {
    assert Load(s) == Place(ws, memSize);
  }

  /** The loader loop of `program_load`; `goto done` is the `break`. */
  method ProgramLoad(s: seq<char>) returns (img: Image)
    ensures img == Load(s)
  {
    var memSize := |s| / 32;
    var mem := new Word[memSize](_ => 0);
    var cur := 0;
    var nbits := 32;
    var value: Word := 0;
    var memData := 0;
    ghost var ws: seq<Word> := [];
    ghost var full := false;
    for i := 0 to |s|
      invariant Loading(s, i, ws, nbits, value, mem[..], memData, cur, memSize)
    {
      var c := s[i];
      ghost var value0 := value;
      if c == '0' {
        value := Wrap(2 * value);
      } else if c == '1' {
        value := Wrap(2 * value + 1);
      } else {
        SkipChar(s, i, ws, nbits, value, mem[..], memData, cur, memSize);
        continue;
      }
      nbits := nbits - 1;
      if nbits != 0 {
        ShiftChar(s, i, ws, nbits + 1, value0, value, mem[..], memData, cur, memSize);
        continue;
      }
      StoreWord(s, i, ws, value0, value, mem[..], memData, cur, memSize);
      mem[cur] := value;
      cur := cur + 1;
      ws := ws + [value];
      if value == 127 {
        memData := cur * 4 + 256;
      }
      if cur == memSize {
        Finish(s, ws, mem[..], memData, cur, memSize);
        full := true;
        break;
      }
      nbits := 32;
      value := 0;
    }
    // Unless the buffer filled up, every character was read.
    if !full {
      Finish(s, ws, mem[..], memData, cur, memSize);
    }
    img := Image(mem[..], memData, cur * 4 + 256);
  }

  /** The loaded words are the complete 32-bit groups of the '0'/'1'
      characters of the file: stopping when the buffer is full never
      drops a word. */
  lemma {:induction false} LoadIsWords(s: seq<char>)
    ensures Load(s) == Place(Words(Bits(s)), |s| / 32)
  {
    ScanIsWords(s, |s|);
    assert s[..|s|] == s;
  }

  /** A file that is the text of words `ws` loads exactly those words, with
      `mem_data` just after the last 127 word and `mem_end` after the last word. */
  lemma {:induction false} LoadText(ws: seq<Word>)
    ensures Load(Text(ws)) == Image(ws, LastBreakAddr(ws), 256 + 4 * |ws|)
  {
    BitsOfBits(Text(ws));
    WordsOfText(ws);
    LoadExact(Text(ws), ws);
  }

  lemma {:induction false} LoadExact(t: seq<char>, ws: seq<Word>)
    requires Words(Bits(t)) == ws && |t| == 32 * |ws|
    ensures Load(t) == Image(ws, LastBreakAddr(ws), 256 + 4 * |ws|)
  {
    LoadIsWords(t);
    assert |t| / 32 == |ws|;
    assert ws + Zeros(0) == ws;
  }
}
