/** word_count.c and word_count-seq.c: cutting a text at white space, and finding words in it in place. */
module WordCount {
  import opened Options
  import opened Sequences
  import opened Permutations

  /** A byte of text, 0 .. 255. */
  type Byte = int

  /** The bytes from start up to end; in the buffer, a NUL at end. */
  datatype Word = Word(start: nat, end: nat)

  /** toupper in the C locale. */
  function Upper(b: Byte): Byte {
    if 'a' as int <= b <= 'z' as int then b - 32 else b
  }

  predicate IsLetter(b: Byte) {
    'A' as int <= b <= 'Z' as int || 'a' as int <= b <= 'z' as int
  }

  /** Letters, and inside a word the apostrophe. */
  predicate IsWordByte(b: Byte) {
    IsLetter(b) || b == '\'' as int
  }

  predicate IsSpace(b: Byte) {
    b == ' ' as int || b == '\t' as int || b == '\r' as int || b == '\n' as int
  }

  /** Upper maps each of the 26 small letters to its capital, and every other byte to itself. */
  lemma {:induction false} UpperIsToUpper(i: nat, b: Byte)
    ensures i < 26 ==> Upper(97 + i) == 65 + i == Upper(65 + i)
    ensures !(97 <= b <= 122) ==> Upper(b) == b
  {
  }

  /** Which bytes the scan and the splitter tell apart, as the numbers they are. */
  lemma {:induction false} ByteClasses(b: Byte)
    ensures IsLetter(b) <==> 65 <= b <= 90 || 97 <= b <= 122
    ensures IsWordByte(b) <==> 65 <= b <= 90 || 97 <= b <= 122 || b == 39
    ensures IsSpace(b) <==> b in {32, 9, 13, 10}
  {
  }

  /** The tests of wordcount_map, made after toupper. */
  lemma {:induction false} TestsAfterUpper(b: Byte)
    ensures 'A' as int <= Upper(b) <= 'Z' as int <==> IsLetter(b)
    ensures 'A' as int <= Upper(b) <= 'Z' as int || Upper(b) == '\'' as int <==> IsWordByte(b)
  {
  }

  // ---------- the words of a text ----------

  /** What the two-state scan knows: the words it has closed, and where the open one began. */
  datatype Scanned = Scanned(words: seq<Word>, open: Option<nat>)

  function ScanTo(text: seq<Byte>, lo: nat, i: nat): Scanned
    requires lo <= i <= |text|
  {
    if i == lo then Scanned([], None)
    else
      var s, b := ScanTo(text, lo, i - 1), text[i - 1];
      match s.open
      case Some(start) => if IsWordByte(b) then s else Scanned(s.words + [Word(start, i - 1)], None)
      case None => if IsLetter(b) then Scanned(s.words, Some(i - 1)) else s
  }

  function Closing(s: Scanned, hi: nat): seq<Word> {
    s.words + if s.open.Some? then [Word(s.open.value, hi)] else []
  }

  /** The words of text[lo..hi], in order. */
  function Tokens(text: seq<Byte>, lo: nat, hi: nat): seq<Word>
    requires lo <= hi <= |text|
  {
    Closing(ScanTo(text, lo, hi), hi)
  }

  /** A maximal run of word bytes without its leading apostrophes: what a word of text[lo..hi] is. */
  ghost predicate IsWord(text: seq<Byte>, lo: nat, hi: nat, w: Word)
    requires lo <= hi <= |text|
  {
    && lo <= w.start < w.end <= hi
    && IsLetter(text[w.start])
    && (forall k :: w.start <= k < w.end ==> IsWordByte(text[k]))
    && (w.end < hi ==> !IsWordByte(text[w.end]))
    && NoLetterBefore(text, lo, w.start)
  }

  /** Going back from i over word bytes one meets no letter. */
  predicate NoLetterBefore(text: seq<Byte>, lo: nat, i: nat)
    requires lo <= i <= |text|
  {
    i == lo || !IsWordByte(text[i - 1]) || (!IsLetter(text[i - 1]) && NoLetterBefore(text, lo, i - 1))
  }

  /** Later words begin behind the end of earlier ones, so no two overlap. */
  ghost predicate Apart(words: seq<Word>) {
    forall a, b :: 0 <= a < b < |words| ==> words[a].end < words[b].start
  }

  lemma {:induction false} ScanMeans(text: seq<Byte>, lo: nat, i: nat)
    requires lo <= i <= |text|
    ensures var s := ScanTo(text, lo, i);
            && Apart(s.words)
            && (forall k :: 0 <= k < |s.words| ==> IsWord(text, lo, i, s.words[k]) && s.words[k].end < i)
            && (s.open.Some? ==> IsWord(text, lo, i, Word(s.open.value, i)))
            && (s.open.Some? ==> forall k :: 0 <= k < |s.words| ==> s.words[k].end < s.open.value)
            && (s.open.None? ==> NoLetterBefore(text, lo, i))
  {
    if i > lo {
      ScanMeans(text, lo, i - 1);
    }
  }

  /** The scan misses no word: each is closed, or still open. */
  lemma {:induction false} ScanFindsAll(text: seq<Byte>, lo: nat, i: nat, w: Word)
    requires lo <= i <= |text| && IsWord(text, lo, i, w)
    ensures var s := ScanTo(text, lo, i); if w.end < i then w in s.words else s.open == Some(w.start)
    decreases i
  {
    var s := ScanTo(text, lo, i - 1);
    ScanMeans(text, lo, i - 1);
    if w.end < i - 1 {
      ScanFindsAll(text, lo, i - 1, w);
    } else if w.start < i - 1 {
      ScanFindsAll(text, lo, i - 1, Word(w.start, i - 1));
    } else if s.open.Some? {
      OpenWordReaches(text, lo, i - 1, s.open.value);
      assert false;
    }
  }

  lemma {:induction false} OpenWordReaches(text: seq<Byte>, lo: nat, i: nat, start: nat)
    requires lo <= start < i <= |text| && IsLetter(text[start]) && forall k :: start <= k < i ==> IsWordByte(text[k])
    ensures !NoLetterBefore(text, lo, i)
  {
    if start < i - 1 {
      OpenWordReaches(text, lo, i - 1, start);
    }
  }

  /** The tokens are exactly the words, in order. */
  lemma {:induction false} TokensAreWords(text: seq<Byte>, lo: nat, hi: nat)
    requires lo <= hi <= |text|
    ensures Apart(Tokens(text, lo, hi))
    ensures forall w :: w in Tokens(text, lo, hi) <==> IsWord(text, lo, hi, w)
  {
    ScanMeans(text, lo, hi);
    forall w | IsWord(text, lo, hi, w)
      ensures w in Tokens(text, lo, hi)
    {
      ScanFindsAll(text, lo, hi, w);
    }
  }

  /** From j, where no run of letters and apostrophes goes on, to i there are only apostrophes. */
  predicate ApostrophesFrom(text: seq<Byte>, lo: nat, i: nat, j: nat)
    requires i <= |text|
  {
    && lo <= j <= i && (forall k :: j <= k < i ==> text[k] == 39)
    && (j > lo ==> !(65 <= text[j - 1] <= 90 || 97 <= text[j - 1] <= 122 || text[j - 1] == 39))
  }

  lemma {:induction false} OnlyApostrophesBefore(text: seq<Byte>, lo: nat, i: nat)
    requires lo <= i <= |text|
    ensures NoLetterBefore(text, lo, i) <==> exists j :: ApostrophesFrom(text, lo, i, j)
  {
    if i == lo || !IsWordByte(text[i - 1]) {
      assert ApostrophesFrom(text, lo, i, i);
    } else {
      OnlyApostrophesBefore(text, lo, i - 1);
      if NoLetterBefore(text, lo, i) {
        var j :| ApostrophesFrom(text, lo, i - 1, j);
        assert ApostrophesFrom(text, lo, i, j);
      }
      if j: nat :| ApostrophesFrom(text, lo, i, j) {
        assert j < i && text[i - 1] == 39;
        assert ApostrophesFrom(text, lo, i - 1, j);
      }
    }
  }

  /** What the words are, byte by byte: a maximal run of letters and apostrophes from its first letter on.
      65 .. 90 and 97 .. 122 are the letters, 39 is the apostrophe. */
  lemma {:induction false} WordsAreLetterRuns(text: seq<Byte>, lo: nat, hi: nat, w: Word)
    requires lo <= hi <= |text|
    ensures w in Tokens(text, lo, hi) <==>
              && lo <= w.start < w.end <= hi
              && (65 <= text[w.start] <= 90 || 97 <= text[w.start] <= 122)
              && (forall k :: w.start <= k < w.end ==> 65 <= text[k] <= 90 || 97 <= text[k] <= 122 || text[k] == 39)
              && (w.end < hi ==> !(65 <= text[w.end] <= 90 || 97 <= text[w.end] <= 122 || text[w.end] == 39))
              && exists j :: ApostrophesFrom(text, lo, w.start, j)
  {
    TokensAreWords(text, lo, hi);
    if lo <= w.start <= hi {
      OnlyApostrophesBefore(text, lo, w.start);
    }
  }

  // ---------- split independence ----------

  lemma {:induction false} ScanFromCut(text: seq<Byte>, lo: nat, cut: nat, i: nat)
    requires lo <= cut < i <= |text| && !IsWordByte(text[cut])
    ensures var whole, part := ScanTo(text, lo, i), ScanTo(text, cut, i);
            whole.open == part.open && whole.words == Tokens(text, lo, cut) + part.words
  {
    if i == cut + 1 {
      assert ScanTo(text, cut, cut) == Scanned([], None);
      assert ScanTo(text, cut, i) == Scanned([], None);
    } else {
      ScanFromCut(text, lo, cut, i - 1);
    }
  }

  /** A text may be cut in front of any byte that cannot be in a word. */
  lemma {:induction false} CutKeepsTokens(text: seq<Byte>, lo: nat, cut: nat, hi: nat)
    requires lo <= cut <= hi <= |text| && (lo < cut < hi ==> !IsWordByte(text[cut]))
    ensures Tokens(text, lo, hi) == Tokens(text, lo, cut) + Tokens(text, cut, hi)
  {
    if cut == lo {
      assert Tokens(text, lo, cut) == [];
    } else if cut < hi {
      ScanFromCut(text, lo, cut, hi);
    } else {
      assert Tokens(text, cut, hi) == [];
    }
  }

  /** One map task: text[start..start + length]. */
  datatype Piece = Piece(start: nat, length: nat)

  /** The pieces follow one another from 0 to `end`, none is empty, and each ends at white space or at
      the end of the text. */
  ghost predicate Cuts(text: seq<Byte>, pieces: seq<Piece>, flen: nat, end: nat)
    requires flen <= |text|
  {
    if pieces == [] then end == 0
    else
      var last := pieces[|pieces| - 1];
      && 0 < last.length && end == last.start + last.length <= flen && (end < flen ==> IsSpace(text[end]))
      && Cuts(text, pieces[..|pieces| - 1], flen, last.start)
  }

  function PieceTokens(text: seq<Byte>, p: Piece): seq<Word> {
    if p.start + p.length <= |text| then Tokens(text, p.start, p.start + p.length) else []
  }

  function AllTokens(text: seq<Byte>, pieces: seq<Piece>): seq<Word> {
    if pieces == [] then []
    else AllTokens(text, pieces[..|pieces| - 1]) + PieceTokens(text, pieces[|pieces| - 1])
  }

  /** Split independence: however the text is cut at white space, the pieces together have exactly the
      words that one pass over the whole text finds, in the same order. */
  lemma {:induction false} PiecesHaveAllWords(text: seq<Byte>, pieces: seq<Piece>, flen: nat, end: nat)
    requires flen <= |text| && Cuts(text, pieces, flen, end)
    ensures end <= |text| && AllTokens(text, pieces) == Tokens(text, 0, end)
  {
    if pieces != [] {
      var init, last := pieces[..|pieces| - 1], pieces[|pieces| - 1];
      PiecesHaveAllWords(text, init, flen, last.start);
      CutsAtSpace(text, init, flen, last.start);
      CutKeepsTokens(text, 0, last.start, end);
      assert PieceTokens(text, last) == Tokens(text, last.start, end);
      assert AllTokens(text, pieces) == AllTokens(text, init) + PieceTokens(text, last);
    }
  }

  lemma {:induction false} CutsAtSpace(text: seq<Byte>, pieces: seq<Piece>, flen: nat, end: nat)
    requires flen <= |text| && Cuts(text, pieces, flen, end) && end < flen
    ensures end > 0 ==> IsSpace(text[end]) && !IsWordByte(text[end])
  {
  }

  // ---------- wordcount_splitter ----------

  /** The first white space at or after i, or the end of the file. */
  function CutAt(text: seq<Byte>, flen: nat, i: nat): (end: nat)
    requires i <= flen <= |text|
    ensures i <= end <= flen && (end < flen ==> IsSpace(text[end]))
    ensures forall k :: i <= k < end ==> !IsSpace(text[k])
    decreases flen - i
  {
    if i == flen || IsSpace(text[i]) then i else CutAt(text, flen, i + 1)
  }

  /** Where a piece from pos on would end if words did not matter. */
  function NominalEnd(flen: nat, pos: nat, length: nat): nat
    requires pos <= flen
  {
    if pos + length > flen then flen else pos + length
  }

  /** The pieces from pos on: each at least of the nominal length, up to the next white space. */
  function Pieces(text: seq<Byte>, flen: nat, pos: nat, length: nat): seq<Piece>
    requires pos <= flen <= |text| && length > 0
    decreases flen - pos
  {
    if pos == flen then []
    else
      var end := CutAt(text, flen, NominalEnd(flen, pos, length));
      [Piece(pos, end - pos)] + Pieces(text, flen, end, length)
  }

  lemma {:induction false} CutsSnoc(text: seq<Byte>, pieces: seq<Piece>, flen: nat, pos: nat, end: nat)
    requires flen <= |text| && Cuts(text, pieces, flen, pos) && pos < end <= flen && (end < flen ==> IsSpace(text[end]))
    ensures Cuts(text, pieces + [Piece(pos, end - pos)], flen, end)
  {
    assert (pieces + [Piece(pos, end - pos)])[..|pieces|] == pieces;
  }

  /** One piece more in front of the rest. */
  lemma {:induction false} PiecesNext(text: seq<Byte>, before: seq<Piece>, flen: nat, pos: nat, length: nat)
    requires pos < flen <= |text| && length > 0
    ensures var end := CutAt(text, flen, NominalEnd(flen, pos, length));
            && pos < end
            && before + Pieces(text, flen, pos, length)
               == (before + [Piece(pos, end - pos)]) + Pieces(text, flen, end, length)
  {
    var end := CutAt(text, flen, NominalEnd(flen, pos, length));
    var rest := Pieces(text, flen, end, length);
    assert Pieces(text, flen, pos, length) == [Piece(pos, end - pos)] + rest;
    assert before + ([Piece(pos, end - pos)] + rest) == (before + [Piece(pos, end - pos)]) + rest;
  }

  class Splitter {
    const fdata: array<Byte>
    const flen: nat
    const unitSize: nat
    var fpos: nat

    constructor (fdata: array<Byte>, flen: nat, unitSize: nat)
      requires flen <= fdata.Length
      ensures this.fdata == fdata && this.flen == flen && this.unitSize == unitSize && fpos == 0
    {
      this.fdata, this.flen, this.unitSize, fpos := fdata, flen, unitSize, 0;
    }

    /** wordcount_splitter: the nominal length, stretched to the next white space and no further. */
    method Split(reqUnits: nat) returns (more: bool, piece: Piece)
      requires reqUnits > 0 && unitSize > 0 && flen <= fdata.Length && fpos <= flen
      modifies this
      ensures more == (old(fpos) < flen)
      ensures !more ==> fpos == old(fpos)
      ensures more ==>
                var nominal := if old(fpos) + reqUnits * unitSize > flen then flen else old(fpos) + reqUnits * unitSize;
                && old(fpos) < nominal <= fpos <= flen && piece == Piece(old(fpos), fpos - old(fpos))
                && (forall k :: nominal <= k < fpos ==> !IsSpace(fdata[k])) && (fpos < flen ==> IsSpace(fdata[fpos]))
                && fpos == CutAt(fdata[..], flen, nominal)
    {
      if fpos >= flen {
        return false, Piece(0, 0);
      }
      var start := fpos;
      var length := reqUnits * unitSize;
      SizeIsPositive(reqUnits, unitSize);
      if fpos + length > flen {
        length := flen - fpos;
      }
      ghost var nominal := fpos + length;
      fpos := fpos + length;
      while fpos < flen && !IsSpace(fdata[fpos])
        invariant nominal <= fpos == start + length <= flen
        invariant forall k :: nominal <= k < fpos ==> !IsSpace(fdata[k])
        invariant CutAt(fdata[..], flen, nominal) == CutAt(fdata[..], flen, fpos)
      {
        fpos := fpos + 1;
        length := length + 1;
      }
      more, piece := true, Piece(start, length);
    }

    /** One turn of the splitting loop of the runtime. */
    method SplitNext(reqUnits: nat, pieces: seq<Piece>, ghost size: nat) returns (more: bool, next: seq<Piece>)
      requires reqUnits > 0 && unitSize > 0 && size == reqUnits * unitSize && flen <= fdata.Length && fpos <= flen
      requires Cuts(fdata[..], pieces, flen, fpos)
      modifies this
      ensures more == (old(fpos) < flen) && fpos <= flen && (more ==> old(fpos) < fpos) && (!more ==> next == pieces)
      ensures Cuts(fdata[..], next, flen, fpos)
      ensures size > 0
      ensures pieces + Pieces(fdata[..], flen, old(fpos), size) == next + Pieces(fdata[..], flen, fpos, size)
    {
      var piece;
      more, piece := Split(reqUnits);
      next := pieces;
      SizeIsPositive(reqUnits, unitSize);
      if more {
        CutsSnoc(fdata[..], pieces, flen, old(fpos), fpos);
        PiecesNext(fdata[..], pieces, flen, old(fpos), size);
        next := pieces + [piece];
      }
    }

    /** The splitting loop of the runtime, before any map task runs: the pieces cover the whole file. */
    method SplitAll(reqUnits: nat) returns (pieces: seq<Piece>)
      requires reqUnits > 0 && unitSize > 0 && flen <= fdata.Length && fpos == 0
      modifies this
      ensures reqUnits * unitSize > 0 && pieces == Pieces(fdata[..], flen, 0, reqUnits * unitSize)
      ensures Cuts(fdata[..], pieces, flen, flen)
    {
      ghost var size: nat := reqUnits * unitSize;
      SizeIsPositive(reqUnits, unitSize);
      pieces := [];
      var more := true;
      while more
        invariant fpos <= flen && (!more ==> fpos == flen)
        invariant Cuts(fdata[..], pieces, flen, fpos)
        invariant Pieces(fdata[..], flen, 0, size) == pieces + Pieces(fdata[..], flen, fpos, size)
        decreases flen - fpos, more
      {
        more, pieces := SplitNext(reqUnits, pieces, size);
      }
      assert pieces + [] == pieces;
    }
  }

  lemma {:induction false} SizeIsPositive(a: nat, b: nat)
    requires a > 0 && b > 0
    ensures a * b > 0
  {
  }

  // ---------- what the tokeniser leaves in the buffer ----------

  /** The byte at k once the words have been upper-cased and NUL-terminated. */
  function Marked(buf: seq<Byte>, words: seq<Word>, k: nat): Byte
    requires k < |buf|
  {
    if words == [] then buf[k]
    else
      var w := words[|words| - 1];
      if k == w.end then 0
      else if w.start <= k < w.end then Upper(buf[k])
      else Marked(buf, words[..|words| - 1], k)
  }

  lemma {:induction false} MarkedSnoc(buf: seq<Byte>, words: seq<Word>, w: Word, k: nat)
    requires k < |buf|
    ensures Marked(buf, words + [w], k) ==
            if k == w.end then 0 else if w.start <= k < w.end then Upper(buf[k]) else Marked(buf, words, k)
  {
    assert (words + [w])[..|words|] == words;
  }

  lemma {:induction false} MarkedOutside(buf: seq<Byte>, words: seq<Word>, k: nat)
    requires k < |buf| && forall j :: 0 <= j < |words| ==> k < words[j].start <= words[j].end || words[j].end < k
    ensures Marked(buf, words, k) == buf[k]
  {
    if words != [] {
      MarkedOutside(buf, words[..|words| - 1], k);
    }
  }

  function AsMarked(buf: seq<Byte>, words: seq<Word>): (r: seq<Byte>)
    ensures |r| == |buf| && forall k :: 0 <= k < |r| ==> r[k] == Marked(buf, words, k)
  {
    seq(|buf|, k requires 0 <= k < |buf| => Marked(buf, words, k))
  }

  /** One byte of the scan: the two states of wordcount_map. */
  lemma {:induction false} ScanStep(buf: seq<Byte>, lo: nat, i: nat)
    requires lo <= i < |buf|
    ensures var s, b := ScanTo(buf, lo, i), buf[i];
            ScanTo(buf, lo, i + 1) ==
              match s.open
              case Some(start) => if IsWordByte(b) then s else Scanned(s.words + [Word(start, i)], None)
              case None => if IsLetter(b) then Scanned(s.words, Some(i)) else s
  {
  }

  /** The byte at k in the middle of the scan: the open word is upper-cased as far as it has been read. */
  function MarkedSoFar(buf: seq<Byte>, s: Scanned, i: nat, k: nat): Byte
    requires k < |buf|
  {
    if s.open.Some? && s.open.value <= k < i then Upper(buf[k]) else Marked(buf, s.words, k)
  }

  lemma {:induction false} UnreadByte(buf: seq<Byte>, lo: nat, i: nat, k: nat)
    requires lo <= i <= k < |buf|
    ensures MarkedSoFar(buf, ScanTo(buf, lo, i), i, k) == buf[k]
    ensures ScanTo(buf, lo, i).open.Some? ==> ScanTo(buf, lo, i).open.value < i
  {
    ScanMeans(buf, lo, i);
    MarkedOutside(buf, ScanTo(buf, lo, i).words, k);
  }

  lemma {:induction false} OpenByte(buf: seq<Byte>, lo: nat, i: nat, k: nat)
    requires lo <= i <= |buf| && k < |buf| && ScanTo(buf, lo, i).open.Some?
    ensures Marked(buf, Closing(ScanTo(buf, lo, i), i), k)
         == if k == i then 0 else MarkedSoFar(buf, ScanTo(buf, lo, i), i, k)
  {
    var s := ScanTo(buf, lo, i);
    MarkedSnoc(buf, s.words, Word(s.open.value, i), k);
  }

  /** What the scan leaves at the byte it reads. */
  function Written(s: Scanned, b: Byte): Byte {
    match s.open
    case Some(start) => if IsWordByte(b) then Upper(b) else 0
    case None => if IsLetter(b) then Upper(b) else b
  }

  lemma {:induction false} ByteAfter(buf: seq<Byte>, lo: nat, i: nat, k: nat)
    requires lo <= i < |buf| && k < |buf|
    ensures MarkedSoFar(buf, ScanTo(buf, lo, i + 1), i + 1, k)
         == if k == i then Written(ScanTo(buf, lo, i), buf[i]) else MarkedSoFar(buf, ScanTo(buf, lo, i), i, k)
  {
    ScanStep(buf, lo, i);
    UnreadByte(buf, lo, i, i);
    var s := ScanTo(buf, lo, i);
    if s.open.Some? && !IsWordByte(buf[i]) {
      OpenByte(buf, lo, i, k);
    }
  }

  /** The body of wordcount_map's loop. */
  method MapByte(data: array<Byte>, i: nat, currStart: nat, inWord: bool, ghost buf: seq<Byte>, ghost lo: nat)
    returns (nextStart: nat, nextIn: bool, emitted: seq<Word>)
    requires lo <= i < data.Length && |buf| == data.Length
    requires ScanTo(buf, lo, i).open == if inWord then Some(currStart) else None
    requires forall k :: 0 <= k < data.Length ==> data[k] == MarkedSoFar(buf, ScanTo(buf, lo, i), i, k)
    modifies data
    ensures ScanTo(buf, lo, i + 1).open == if nextIn then Some(nextStart) else None
    ensures ScanTo(buf, lo, i + 1).words == ScanTo(buf, lo, i).words + emitted
    ensures forall k :: 0 <= k < data.Length ==> data[k] == MarkedSoFar(buf, ScanTo(buf, lo, i + 1), i + 1, k)
  {
    nextStart, nextIn, emitted := currStart, inWord, [];
    UnreadByte(buf, lo, i, i);
    ScanStep(buf, lo, i);
    ghost var before := data[..];
    TestsAfterUpper(data[i]);
    var currLtr := Upper(data[i]);
    if inWord {
      data[i] := currLtr;
      if (currLtr < 'A' as int || currLtr > 'Z' as int) && currLtr != '\'' as int {
        data[i] := 0;
        emitted := [Word(currStart, i)];
        nextIn := false;
      }
    } else if 'A' as int <= currLtr <= 'Z' as int {
      nextStart := i;
      data[i] := currLtr;
      nextIn := true;
    }
    assert data[..] == before[i := Written(ScanTo(buf, lo, i), buf[i])];
    forall k | 0 <= k < data.Length
      ensures data[k] == MarkedSoFar(buf, ScanTo(buf, lo, i + 1), i + 1, k)
    {
      ByteAfter(buf, lo, i, k);
      assert data[..][k] == data[k];
    }
    assert ScanTo(buf, lo, i).words + [] == ScanTo(buf, lo, i).words;
  }

  /** wordcount_map: emits exactly the words of its piece, and leaves each of them upper-cased and
      NUL-terminated; the NUL behind the last one may be the first byte of the next piece. */
  method WordcountMap(data: array<Byte>, piece: Piece) returns (words: seq<Word>)
    requires piece.start + piece.length < data.Length
    modifies data
    ensures words == PieceTokens(old(data[..]), piece)
    ensures data[..] == AsMarked(old(data[..]), words)
  {
    ghost var buf := data[..];
    var lo, end := piece.start, piece.start + piece.length;
    var currStart, inWord := lo, false;
    words := [];
    for i := lo to end
      invariant ScanTo(buf, lo, i) == Scanned(words, if inWord then Some(currStart) else None)
      invariant forall k :: 0 <= k < data.Length ==> data[k] == MarkedSoFar(buf, ScanTo(buf, lo, i), i, k)
    {
      var emitted;
      currStart, inWord, emitted := MapByte(data, i, currStart, inWord, buf, lo);
      words := words + emitted;
    }
    if inWord {
      data[end] := 0;
      words := words + [Word(currStart, end)];
      forall k | 0 <= k < data.Length
        ensures data[k] == Marked(buf, words, k)
      {
        OpenByte(buf, lo, end, k);
      }
    } else {
      assert words + [] == words;
    }
  }

  // ---------- all pieces, in any order ----------

  /** Piece a ends where a later piece begins, or before; where a piece begins the file has white space,
      unless it is the first. */
  lemma {:induction false} PiecesApart(text: seq<Byte>, pieces: seq<Piece>, flen: nat, end: nat)
    requires flen <= |text| && Cuts(text, pieces, flen, end)
    ensures forall a, b :: 0 <= a < b < |pieces| ==> pieces[a].start + pieces[a].length <= pieces[b].start
    ensures forall a :: 0 <= a < |pieces| ==> pieces[a].start + pieces[a].length <= end
    ensures forall a :: 0 <= a < |pieces| && pieces[a].start > 0 ==>
            pieces[a].start < flen && !IsWordByte(text[pieces[a].start])
  {
    if pieces != [] {
      var n := |pieces| - 1;
      PiecesApart(text, pieces[..n], flen, pieces[n].start);
      CutsAtSpace(text, pieces[..n], flen, pieces[n].start);
      forall a, b | 0 <= a < b < |pieces|
        ensures pieces[a].start + pieces[a].length <= pieces[b].start
      {
        assert pieces[..n][a] == pieces[a] && (b < n ==> pieces[..n][b] == pieces[b]);
      }
      forall a | 0 <= a < |pieces| && pieces[a].start > 0
        ensures pieces[a].start < flen && !IsWordByte(text[pieces[a].start])
      {
        assert a < n ==> pieces[..n][a] == pieces[a];
      }
    }
  }

  /** The words of the pieces, piece by piece. */
  function TokensByPiece(text: seq<Byte>, pieces: seq<Piece>): (r: seq<seq<Word>>)
    ensures |r| == |pieces| && forall c :: 0 <= c < |r| ==> r[c] == PieceTokens(text, pieces[c])
  {
    seq(|pieces|, c requires 0 <= c < |pieces| => PieceTokens(text, pieces[c]))
  }

  /** The words of some pieces, in the order given. */
  function InOrder(byPiece: seq<seq<Word>>, order: seq<nat>): seq<Word>
    requires forall i :: 0 <= i < |order| ==> order[i] < |byPiece|
  {
    if order == [] then [] else InOrder(byPiece, order[..|order| - 1]) + byPiece[order[|order| - 1]]
  }

  lemma {:induction false} InOrderIsGathered(byPiece: seq<seq<Word>>, order: seq<nat>)
    requires forall i :: 0 <= i < |order| ==> order[i] < |byPiece|
    ensures multiset(InOrder(byPiece, order)) == Gather(byPiece, order)
  {
    if order != [] {
      InOrderIsGathered(byPiece, order[..|order| - 1]);
    }
  }

  lemma {:induction false} AllTokensFlat(text: seq<Byte>, pieces: seq<Piece>, byPiece: seq<seq<Word>>, n: nat)
    requires n <= |pieces| == |byPiece| && forall c :: 0 <= c < |pieces| ==> byPiece[c] == PieceTokens(text, pieces[c])
    ensures AllTokens(text, pieces[..n]) == Flatten(byPiece[..n])
  {
    if n > 0 {
      AllTokensFlat(text, pieces, byPiece, n - 1);
      PrefixStep(pieces, n - 1);
      PrefixStep(byPiece, n - 1);
      FlattenSnoc(byPiece[..n - 1], byPiece[n - 1]);
    }
  }

  /** The words emitted over all pieces, run in any order, are the words of one pass over the text. */
  lemma {:induction false} AnyOrderHasAllWords(text: seq<Byte>, pieces: seq<Piece>, flen: nat, order: seq<nat>)
    requires flen <= |text| && Cuts(text, pieces, flen, flen) && multiset(order) == multiset(Iota(|pieces|))
    ensures forall i :: 0 <= i < |order| ==> order[i] < |pieces|
    ensures multiset(InOrder(TokensByPiece(text, pieces), order)) == multiset(Tokens(text, 0, flen))
  {
    forall i | 0 <= i < |order|
      ensures order[i] < |pieces|
    {
      assert order[i] in multiset(Iota(|pieces|));
    }
    var byPiece := TokensByPiece(text, pieces);
    InOrderIsGathered(byPiece, order);
    GatherPermutation(byPiece, order, Iota(|pieces|));
    GatherIota(byPiece, |pieces|);
    AllTokensFlat(text, pieces, byPiece, |pieces|);
    FlattenTogether(byPiece, |pieces|);
    assert pieces[..|pieces|] == pieces;
    PiecesHaveAllWords(text, pieces, flen, flen);
  }

  // ---------- the buffer while the pieces are worked on ----------

  /** Where two buffers agree on what can be in a word, they have the same words. */
  lemma {:induction false} SameScan(a: seq<Byte>, b: seq<Byte>, lo: nat, i: nat)
    requires lo <= i <= |a| == |b|
    requires forall k :: lo <= k < i ==> IsLetter(a[k]) == IsLetter(b[k]) && IsWordByte(a[k]) == IsWordByte(b[k])
    ensures ScanTo(a, lo, i) == ScanTo(b, lo, i)
  {
    if i > lo {
      SameScan(a, b, lo, i - 1);
    }
  }

  /** A piece nobody has worked on, in a buffer others have marked: only its first byte may have become
      the NUL of the word before it, and that byte was white space. */
  ghost predicate Untouched(text: seq<Byte>, buf: seq<Byte>, p: Piece)
    requires p.start + p.length <= |text| == |buf|
  {
    forall k :: p.start <= k < p.start + p.length ==>
      buf[k] == text[k] || (k == p.start && buf[k] == 0 && !IsWordByte(text[k]))
  }

  lemma {:induction false} UntouchedTokens(text: seq<Byte>, buf: seq<Byte>, p: Piece)
    requires p.start + p.length <= |text| == |buf| && Untouched(text, buf, p)
    ensures PieceTokens(buf, p) == PieceTokens(text, p)
  {
    SameScan(buf, text, p.start, p.start + p.length);
  }

  /** Marking words on top of other marks is marking them all. */
  lemma {:induction false} MarkedTwice(text: seq<Byte>, a: seq<Word>, b: seq<Word>, k: nat)
    requires k < |text|
    requires forall j :: 0 <= j < |b| && b[j].start <= k < b[j].end ==> Upper(Marked(text, a, k)) == Upper(text[k])
    ensures Marked(AsMarked(text, a), b, k) == Marked(text, a + b, k)
  {
    if b == [] {
      assert a + b == a;
    } else {
      var n := |b| - 1;
      assert b[..n] + [b[n]] == b;
      MarkedTwice(text, a, b[..n], k);
      assert a + b == (a + b[..n]) + [b[n]];
      MarkedSnoc(text, a + b[..n], b[n], k);
      MarkedSnoc(AsMarked(text, a), b[..n], b[n], k);
    }
  }

  /** Every word of a list lies in a piece that ends before p begins, or begins where p ends, or behind. */
  ghost predicate Elsewhere(words: seq<Word>, p: Piece) {
    forall j :: 0 <= j < |words| ==>
      words[j].start < words[j].end <= p.start || p.start + p.length <= words[j].start < words[j].end
  }

  lemma {:induction false} MarkedElsewhere(text: seq<Byte>, words: seq<Word>, p: Piece, k: nat)
    requires p.start <= k < p.start + p.length <= |text| && Elsewhere(words, p)
    ensures Marked(text, words, k) == text[k] || (k == p.start && Marked(text, words, k) == 0)
  {
    if words != [] {
      MarkedElsewhere(text, words[..|words| - 1], p, k);
    }
  }

  lemma {:induction false} OthersLeaveUntouched(text: seq<Byte>, words: seq<Word>, p: Piece)
    requires p.start + p.length <= |text| && Elsewhere(words, p)
    requires p.start > 0 ==> p.start < |text| && !IsWordByte(text[p.start])
    ensures Untouched(text, AsMarked(text, words), p)
  {
    forall k | p.start <= k < p.start + p.length
      ensures Marked(text, words, k) == text[k] || (k == p.start && Marked(text, words, k) == 0 && !IsWordByte(text[k]))
    {
      MarkedElsewhere(text, words, p, k);
      if k == 0 {
        MarkedOutsideZero(text, words, p);
      }
    }
  }

  lemma {:induction false} MarkedOutsideZero(text: seq<Byte>, words: seq<Word>, p: Piece)
    requires p.start == 0 < p.length <= |text| && Elsewhere(words, p)
    ensures Marked(text, words, 0) == text[0]
  {
    MarkedOutside(text, words, 0);
  }

  lemma {:induction false} PieceElsewhere(text: seq<Byte>, pieces: seq<Piece>, flen: nat, d: nat, c: nat)
    requires flen <= |text| && Cuts(text, pieces, flen, flen) && c < |pieces| && d < |pieces| && c != d
    ensures Elsewhere(PieceTokens(text, pieces[d]), pieces[c])
  {
    PiecesApart(text, pieces, flen, flen);
    var p := pieces[d];
    TokensAreWords(text, p.start, p.start + p.length);
    var own := PieceTokens(text, p);
    forall j | 0 <= j < |own|
      ensures IsWord(text, p.start, p.start + p.length, own[j])
    {
      assert own[j] in own;
    }
  }

  lemma {:induction false} ElsewhereConcat(a: seq<Word>, b: seq<Word>, p: Piece)
    requires Elsewhere(a, p) && Elsewhere(b, p)
    ensures Elsewhere(a + b, p)
  {
  }

  /** The words of the pieces already run lie elsewhere than piece c. */
  lemma {:induction false} DoneElsewhere(text: seq<Byte>, pieces: seq<Piece>, flen: nat, order: seq<nat>, c: nat)
    requires flen <= |text| && Cuts(text, pieces, flen, flen) && c < |pieces|
    requires forall i :: 0 <= i < |order| ==> order[i] < |pieces| && order[i] != c
    ensures Elsewhere(InOrder(TokensByPiece(text, pieces), order), pieces[c])
  {
    if order != [] {
      var n := |order| - 1;
      DoneElsewhere(text, pieces, flen, order[..n], c);
      PieceElsewhere(text, pieces, flen, order[n], c);
      ElsewhereConcat(InOrder(TokensByPiece(text, pieces), order[..n]), PieceTokens(text, pieces[order[n]]), pieces[c]);
    }
  }

  /** Running a piece on marks made elsewhere: its words are those of the untouched text, and the marks
      add up. */
  lemma {:induction false} OneMorePiece(text: seq<Byte>, words: seq<Word>, p: Piece)
    requires p.start + p.length <= |text| && Elsewhere(words, p)
    requires p.start > 0 ==> p.start < |text| && !IsWordByte(text[p.start])
    ensures PieceTokens(AsMarked(text, words), p) == PieceTokens(text, p)
    ensures AsMarked(AsMarked(text, words), PieceTokens(text, p)) == AsMarked(text, words + PieceTokens(text, p))
  {
    var own := PieceTokens(text, p);
    OthersLeaveUntouched(text, words, p);
    UntouchedTokens(text, AsMarked(text, words), p);
    forall k | 0 <= k < |text|
      ensures Marked(AsMarked(text, words), own, k) == Marked(text, words + own, k)
    {
      OwnBytesUntouched(text, words, p, k);
      MarkedTwice(text, words, own, k);
    }
  }

  /** A byte of a word of p has not been changed by marks elsewhere. */
  lemma {:induction false} OwnBytesUntouched(text: seq<Byte>, words: seq<Word>, p: Piece, k: nat)
    requires p.start + p.length <= |text| && Untouched(text, AsMarked(text, words), p) && k < |text|
    ensures forall j :: 0 <= j < |PieceTokens(text, p)| ==>
              var w := PieceTokens(text, p)[j];
              w.start <= k < w.end ==> Marked(text, words, k) == text[k]
  {
    var own := PieceTokens(text, p);
    TokensAreWords(text, p.start, p.start + p.length);
    forall j | 0 <= j < |own| && own[j].start <= k < own[j].end
      ensures Marked(text, words, k) == text[k]
    {
      assert own[j] in own;
      assert IsWord(text, p.start, p.start + p.length, own[j]) && IsWordByte(text[k]);
      assert AsMarked(text, words)[k] == Marked(text, words, k);
    }
  }

  lemma {:induction false} InOrderStep(byPiece: seq<seq<Word>>, order: seq<nat>, i: nat)
    requires i < |order| && forall j :: 0 <= j < |order| ==> order[j] < |byPiece|
    ensures InOrder(byPiece, order[..i + 1]) == InOrder(byPiece, order[..i]) + byPiece[order[i]]
  {
    PrefixStep(order, i);
  }

  /** One map task after some others. */
  method MapPiece(data: array<Byte>, pieces: seq<Piece>, order: seq<nat>, i: nat, flen: nat,
                  ghost text: seq<Byte>, ghost words: seq<Word>)
    returns (own: seq<Word>)
    requires flen < data.Length == |text| && Cuts(text, pieces, flen, flen) && i < |order|
    requires forall j :: 0 <= j < |order| ==> order[j] < |pieces|
    requires forall j, k :: 0 <= j < k < |order| ==> order[j] != order[k]
    requires words == InOrder(TokensByPiece(text, pieces), order[..i]) && data[..] == AsMarked(text, words)
    modifies data
    ensures own == PieceTokens(text, pieces[order[i]]) && data[..] == AsMarked(text, words + own)
  {
    PiecesApart(text, pieces, flen, flen);
    DoneElsewhere(text, pieces, flen, order[..i], order[i]);
    OneMorePiece(text, words, pieces[order[i]]);
    own := WordcountMap(data, pieces[order[i]]);
  }

  /** All map tasks, in whatever order they are handed out, on the one buffer they share. */
  method MapPieces(data: array<Byte>, pieces: seq<Piece>, order: seq<nat>, flen: nat)
    returns (words: seq<Word>, byPiece: seq<seq<Word>>)
    requires flen < data.Length && Cuts(data[..], pieces, flen, flen)
    requires forall i :: 0 <= i < |order| ==> order[i] < |pieces|
    requires forall i, j :: 0 <= i < j < |order| ==> order[i] != order[j]
    modifies data
    ensures words == InOrder(TokensByPiece(old(data[..]), pieces), order)
    ensures |byPiece| == |pieces|
    ensures forall i :: 0 <= i < |order| ==> byPiece[order[i]] == PieceTokens(old(data[..]), pieces[order[i]])
    ensures data[..] == AsMarked(old(data[..]), words)
  {
    ghost var text := data[..];
    ghost var all := TokensByPiece(text, pieces);
    words, byPiece := [], seq(|pieces|, _ => []);
    assert order[..0] == [];
    for i := 0 to |order|
      invariant words == InOrder(all, order[..i])
      invariant |byPiece| == |pieces|
      invariant forall j :: 0 <= j < i ==> byPiece[order[j]] == all[order[j]]
      invariant data[..] == AsMarked(text, words)
    {
      InOrderStep(all, order, i);
      var own := MapPiece(data, pieces, order, i, flen, text, words);
      words, byPiece := words + own, byPiece[order[i] := own];
    }
    assert order[..|order|] == order;
  }

  // ---------- the pointers ----------

  /** The word as it is spelled in the buffer: upper case. */
  function Spell(text: seq<Byte>, w: Word): (r: seq<Byte>)
    requires w.start <= w.end <= |text|
    ensures |r| == w.end - w.start && forall k :: 0 <= k < |r| ==> r[k] == Upper(text[w.start + k])
  {
    seq(w.end - w.start, k requires 0 <= k < w.end - w.start => Upper(text[w.start + k]))
  }

  /** A pointer to `start` denotes the string s: its bytes, none of them NUL, then a NUL. */
  ghost predicate Denotes(buf: seq<Byte>, start: nat, s: seq<Byte>) {
    && start + |s| < |buf|
    && (forall k :: 0 <= k < |s| ==> buf[start + k] == s[k] != 0)
    && buf[start + |s|] == 0
  }

  lemma {:induction false} MarkedInside(text: seq<Byte>, words: seq<Word>, w: Word, k: nat)
    requires k < |text| && w.start <= k <= w.end && w in words
    requires forall j :: 0 <= j < |words| ==>
             words[j] == w || words[j].end < w.start || w.end < words[j].start <= words[j].end
    ensures Marked(text, words, k) == if k == w.end then 0 else Upper(text[k])
  {
    var n := |words| - 1;
    if words[n] != w {
      assert words == words[..n] + [words[n]];
      MarkedInside(text, words[..n], w, k);
    }
  }

  lemma {:induction false} WordsApart(words: seq<Word>, all: seq<Word>, w: Word)
    requires Apart(all) && w in words && forall v :: v in words ==> v in all
    requires forall v :: v in all ==> v.start <= v.end
    ensures forall j :: 0 <= j < |words| ==>
              words[j] == w || words[j].end < w.start || w.end < words[j].start <= words[j].end
  {
    forall j | 0 <= j < |words|
      ensures words[j] == w || words[j].end < w.start || w.end < words[j].start <= words[j].end
    {
      assert words[j] in all && w in all;
      var a :| 0 <= a < |all| && all[a] == words[j];
      var b :| 0 <= b < |all| && all[b] == w;
    }
  }

  /** At the end every pointer emitted, whichever piece and whenever, denotes its own word. */
  lemma {:induction false} PointersDenoteWords(text: seq<Byte>, words: seq<Word>, flen: nat, w: Word)
    requires flen < |text| && w in words && forall v :: v in words ==> v in Tokens(text, 0, flen)
    ensures IsWord(text, 0, flen, w) && Denotes(AsMarked(text, words), w.start, Spell(text, w))
  {
    TokensAreWords(text, 0, flen);
    WordsApart(words, Tokens(text, 0, flen), w);
    forall k | w.start <= k <= w.end
      ensures Marked(text, words, k) == if k == w.end then 0 else Upper(text[k])
    {
      MarkedInside(text, words, w, k);
    }
    forall k | 0 <= k < |Spell(text, w)|
      ensures Spell(text, w)[k] != 0
    {
      assert IsWordByte(text[w.start + k]);
    }
  }
}
