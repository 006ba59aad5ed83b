/**
 The append-only files of OnDiskPt/src: words, target phrases and target phrase collections
 (Word.cpp, TargetPhrase.cpp, TargetPhraseCollection.cpp), with one factor a word.

 A byte is one of the bytes of the number, float or character it was written for, so that
 offsets are those of the original while the encoding of a value stays abstract.
 */
module OnDiskFile {

  datatype Field = Num(n: nat) | Float(x: real) | Char(c: nat)

  datatype Byte = Byte(field: Field, k: nat)

  type Bytes = seq<Byte>

  function Size(f: Field): (n: nat)
    ensures n > 0
  {
    match f
    case Num(_) => 8
    case Float(_) => 4
    case Char(_) => 1
  }

  function Encode(f: Field): (b: Bytes)
    ensures |b| == Size(f)
  {
    seq(Size(f), k requires 0 <= k => Byte(f, k))
  }

  function EncodeAll(fs: seq<Field>): Bytes {
    if fs == [] then [] else Encode(fs[0]) + EncodeAll(fs[1..])
  }

  function SizeAll(fs: seq<Field>): nat {
    if fs == [] then 0 else Size(fs[0]) + SizeAll(fs[1..])
  }

  /** The fields stand one behind the other from `pos` on. */
  predicate Layout(file: Bytes, pos: nat, fs: seq<Field>)
    decreases |fs|
  {
    if fs == [] then pos <= |file|
    else
      var next := pos + Size(fs[0]);
      next <= |file| && file[pos..next] == Encode(fs[0]) && Layout(file, next, fs[1..])
  }

  predicate Extends(file: Bytes, longer: Bytes) {
    file <= longer
  }

  lemma {:induction false} LayoutKept(file: Bytes, longer: Bytes, pos: nat, fs: seq<Field>)
    requires Layout(file, pos, fs) && Extends(file, longer)
    ensures Layout(longer, pos, fs)
    decreases |fs|
  {
    if fs != [] {
      LayoutKept(file, longer, pos + Size(fs[0]), fs[1..]);
      assert longer[pos..pos + Size(fs[0])] == file[pos..pos + Size(fs[0])];
    }
  }

  /** What is appended stands at the old end. */
  lemma {:induction false} Appended(file: Bytes, fs: seq<Field>)
    ensures Layout(file + EncodeAll(fs), |file|, fs)
    ensures |EncodeAll(fs)| == SizeAll(fs)
    decreases |fs|
  {
    if fs != [] {
      var first := file + Encode(fs[0]);
      Appended(first, fs[1..]);
      assert first + EncodeAll(fs[1..]) == file + EncodeAll(fs);
      assert (file + EncodeAll(fs))[|file|..|file| + Size(fs[0])] == Encode(fs[0]);
    } else {
      assert file + EncodeAll(fs) == file;
    }
  }

  lemma {:induction false} LayoutParts(file: Bytes, pos: nat, fs: seq<Field>, gs: seq<Field>)
    ensures SizeAll(fs + gs) == SizeAll(fs) + SizeAll(gs)
    ensures Layout(file, pos, fs + gs) <==> Layout(file, pos, fs) && Layout(file, pos + SizeAll(fs), gs)
    decreases |fs|
  {
    if fs == [] {
      assert fs + gs == gs;
      LayoutInside(file, pos, gs);
    } else {
      assert (fs + gs)[0] == fs[0] && (fs + gs)[1..] == fs[1..] + gs;
      LayoutParts(file, pos + Size(fs[0]), fs[1..], gs);
    }
  }

  lemma {:induction false} LayoutInside(file: Bytes, pos: nat, fs: seq<Field>)
    ensures Layout(file, pos, fs) ==> pos + SizeAll(fs) <= |file|
    decreases |fs|
  {
    if fs != [] {
      LayoutInside(file, pos + Size(fs[0]), fs[1..]);
    }
  }

  /** Reading a field where one was written; from the middle of one, nothing is known. */
  function ReadField(file: Bytes, pos: nat): (f: Field)
    requires pos < |file|
  {
    if file[pos].k == 0 then file[pos].field else Char(file[pos].k)
  }

  function ReadNum(file: Bytes, pos: nat): nat
    requires pos < |file|
  {
    var f := ReadField(file, pos);
    if f.Num? then f.n else 0
  }

  function ReadFloat(file: Bytes, pos: nat): real
    requires pos < |file|
  {
    var f := ReadField(file, pos);
    if f.Float? then f.x else 0.0
  }

  lemma {:induction false} ReadsFirst(file: Bytes, pos: nat, fs: seq<Field>)
    requires fs != [] && Layout(file, pos, fs)
    ensures pos < |file| && ReadField(file, pos) == fs[0]
    ensures Layout(file, pos + Size(fs[0]), fs[1..])
  {
    assert file[pos..pos + Size(fs[0])][0] == Encode(fs[0])[0];
  }

  // ---------------------------------------------------------------- words

  datatype Word = Word(nonTerminal: bool, factor: nat)

  const WORD_SIZE := 9

  function WordFields(w: Word): seq<Field> {
    [Num(w.factor), Char(if w.nonTerminal then 1 else 0)]
  }

  function ReadWord(file: Bytes, pos: nat): Word
    requires pos + 8 < |file|
  {
    Word(ReadField(file, pos + 8) == Char(1), ReadNum(file, pos))
  }

  /** Word::Compare: non-terminals come first. */
  function Compare(a: Word, b: Word): (c: int)
    ensures c == 0 <==> a == b
    ensures c < 0 <==> (a.nonTerminal && !b.nonTerminal) || (a.nonTerminal == b.nonTerminal && a.factor < b.factor)
  {
    if a.nonTerminal != b.nonTerminal then if a.nonTerminal then -1 else 1
    else if a.factor < b.factor then -1
    else if a.factor > b.factor then 1
    else 0
  }

  predicate Less(a: Word, b: Word)
    ensures Less(a, b) <==> (a.nonTerminal && !b.nonTerminal) || (a.nonTerminal == b.nonTerminal && a.factor < b.factor)
  {
    Compare(a, b) < 0
  }

  lemma {:induction false} WordRead(file: Bytes, pos: nat, w: Word, rest: seq<Field>)
    requires Layout(file, pos, WordFields(w) + rest)
    ensures pos + 8 < |file| && ReadWord(file, pos) == w && Layout(file, pos + WORD_SIZE, rest)
  {
    var fs := WordFields(w) + rest;
    ReadsFirst(file, pos, fs);
    assert fs[1..][1..] == rest;
    ReadsFirst(file, pos + 8, fs[1..]);
  }

  // ---------------------------------------------------------------- target phrases

  datatype TargetPhrase = TargetPhrase(words: seq<Word>, align: seq<(nat, nat)>, scores: seq<real>)

  function WordsFields(words: seq<Word>): seq<Field> {
    if words == [] then [] else WordFields(words[0]) + WordsFields(words[1..])
  }

  function AlignFields(align: seq<(nat, nat)>): seq<Field> {
    if align == [] then [] else [Num(align[0].0), Num(align[0].1)] + AlignFields(align[1..])
  }

  function ScoreFields(scores: seq<real>): seq<Field> {
    if scores == [] then [] else [Float(scores[0])] + ScoreFields(scores[1..])
  }

  function PhraseFields(words: seq<Word>): seq<Field> {
    [Num(|words|)] + WordsFields(words)
  }

  function InfoFields(filePos: nat, tp: TargetPhrase): seq<Field> {
    [Num(filePos), Num(|tp.align|)] + (AlignFields(tp.align) + ScoreFields(tp.scores))
  }

  method ReadWords(file: Bytes, pos: nat, n: nat, ghost words: seq<Word>) returns (r: seq<Word>)
    requires n == |words| && Layout(file, pos, WordsFields(words))
    ensures r == words
  {
    r := [];
    ghost var left := words;
    var at: nat := pos;
    for i := 0 to n
      invariant words == r + left && |r| == i && Layout(file, at, WordsFields(left))
    {
      WordRead(file, at, left[0], WordsFields(left[1..]));
      r := r + [ReadWord(file, at)];
      left := left[1..];
      at := at + WORD_SIZE;
    }
  }

  /** ReadFromFile: the words of a phrase. */
  method ReadPhrase(file: Bytes, pos: nat, ghost words: seq<Word>) returns (r: seq<Word>)
    requires Layout(file, pos, PhraseFields(words))
    ensures r == words
  {
    ReadsFirst(file, pos, PhraseFields(words));
    assert PhraseFields(words)[1..] == WordsFields(words);
    r := ReadWords(file, pos + 8, ReadNum(file, pos), words);
  }

  lemma {:induction false} PairRead(file: Bytes, pos: nat, align: seq<(nat, nat)>, rest: seq<Field>)
    requires align != [] && Layout(file, pos, AlignFields(align) + rest)
    ensures pos + 8 < |file| && ReadNum(file, pos) == align[0].0 && ReadNum(file, pos + 8) == align[0].1
    ensures Layout(file, pos + 16, AlignFields(align[1..]) + rest)
  {
    var fs := AlignFields(align) + rest;
    assert fs[1..][1..] == AlignFields(align[1..]) + rest;
    ReadsFirst(file, pos, fs);
    ReadsFirst(file, pos + 8, fs[1..]);
  }

  method ReadAlign(file: Bytes, pos: nat, n: nat, ghost align: seq<(nat, nat)>, ghost rest: seq<Field>)
    returns (r: seq<(nat, nat)>, at: nat)
    requires n == |align| && Layout(file, pos, AlignFields(align) + rest)
    ensures r == align && Layout(file, at, rest) && at == pos + 16 * n
  {
    r, at := [], pos;
    ghost var left := align;
    assert AlignFields([]) + rest == rest;
    for i := 0 to n
      invariant align == r + left && |r| == i && Layout(file, at, AlignFields(left) + rest) && at == pos + 16 * i
    {
      PairRead(file, at, left, rest);
      r := r + [(ReadNum(file, at), ReadNum(file, at + 8))];
      left := left[1..];
      at := at + 16;
    }
    assert AlignFields(left) + rest == rest;
  }

  const LOWEST_SCORE := -100.0

  /** TransformScore, which takes the logarithm, and FloorScore. */
  function AsRead(score: real, log: real -> real): (r: real)
    ensures r >= -100.0 && r >= log(score) && (r == -100.0 || r == log(score))
  {
    if log(score) > LOWEST_SCORE then log(score) else LOWEST_SCORE
  }

  function ScoresRead(scores: seq<real>, log: real -> real): (r: seq<real>)
    ensures |r| == |scores|
  {
    seq(|scores|, k requires 0 <= k < |scores| => AsRead(scores[k], log))
  }

  method ReadScores(file: Bytes, pos: nat, n: nat, log: real -> real, ghost scores: seq<real>)
    returns (r: seq<real>, at: nat)
    requires n == |scores| && Layout(file, pos, ScoreFields(scores))
    ensures r == ScoresRead(scores, log) && at == pos + 4 * n
  {
    r, at := [], pos;
    ghost var left := scores;
    for i := 0 to n
      invariant scores == r + left && |r| == i && Layout(file, at, ScoreFields(left)) && at == pos + 4 * i
    {
      ReadsFirst(file, at, ScoreFields(left));
      assert ScoreFields(left)[1..] == ScoreFields(left[1..]);
      r := r + [ReadFloat(file, at)];
      left := left[1..];
      at := at + 4;
    }
    assert r == scores;
    r := ScoresRead(r, log);
  }

  // ---------------------------------------------------------------- collections of target phrases

  datatype Files = Files(source: Bytes, ind: Bytes, coll: Bytes)

  predicate Grown(f: Files, g: Files) {
    Extends(f.source, g.source) && Extends(f.ind, g.ind) && Extends(f.coll, g.coll)
  }

  function InfoSize(tp: TargetPhrase): nat {
    16 + 16 * |tp.align| + 4 * |tp.scores|
  }

  /** The entry at `pos` describes the phrase, and points to its words. */
  ghost predicate EntryAt(files: Files, pos: nat, tp: TargetPhrase) {
    exists p: nat {:trigger InfoFields(p, tp)} :: 0 < p && Layout(files.coll, pos, InfoFields(p, tp))
      && Layout(files.ind, p, PhraseFields(tp.words))
  }

  ghost predicate EntriesAt(files: Files, pos: nat, tps: seq<TargetPhrase>)
    decreases |tps|
  {
    tps == [] || (EntryAt(files, pos, tps[0]) && EntriesAt(files, pos + InfoSize(tps[0]), tps[1..]))
  }

  ghost predicate CollAt(files: Files, pos: nat, tps: seq<TargetPhrase>) {
    0 < pos && Layout(files.coll, pos, [Num(|tps|)]) && EntriesAt(files, pos + 8, tps)
  }

  lemma {:induction false} EntryKept(f: Files, g: Files, pos: nat, tp: TargetPhrase)
    requires EntryAt(f, pos, tp) && Grown(f, g)
    ensures EntryAt(g, pos, tp)
  {
    var p: nat :| 0 < p && Layout(f.coll, pos, InfoFields(p, tp)) && Layout(f.ind, p, PhraseFields(tp.words));
    LayoutKept(f.coll, g.coll, pos, InfoFields(p, tp));
    LayoutKept(f.ind, g.ind, p, PhraseFields(tp.words));
  }

  lemma {:induction false} EntriesKept(f: Files, g: Files, pos: nat, tps: seq<TargetPhrase>)
    requires EntriesAt(f, pos, tps) && Grown(f, g)
    ensures EntriesAt(g, pos, tps)
    decreases |tps|
  {
    if tps != [] {
      EntryKept(f, g, pos, tps[0]);
      EntriesKept(f, g, pos + InfoSize(tps[0]), tps[1..]);
    }
  }

  lemma {:induction false} CollKept(f: Files, g: Files, pos: nat, tps: seq<TargetPhrase>)
    requires CollAt(f, pos, tps) && Grown(f, g)
    ensures CollAt(g, pos, tps)
  {
    LayoutKept(f.coll, g.coll, pos, [Num(|tps|)]);
    EntriesKept(f, g, pos + 8, tps);
  }

  lemma {:induction false} InfoSizeIs(p: nat, tp: TargetPhrase)
    ensures SizeAll(InfoFields(p, tp)) == InfoSize(tp)
  {
    AlignSize(tp.align);
    ScoreSize(tp.scores);
    LayoutParts([], 0, AlignFields(tp.align), ScoreFields(tp.scores));
    LayoutParts([], 0, [Num(p), Num(|tp.align|)], AlignFields(tp.align) + ScoreFields(tp.scores));
    assert SizeAll([Num(p), Num(|tp.align|)]) == 8 + SizeAll([Num(|tp.align|)]);
    assert SizeAll([Num(|tp.align|)]) == 8 + SizeAll([]);
  }

  lemma {:induction false} AlignSize(align: seq<(nat, nat)>)
    ensures SizeAll(AlignFields(align)) == 16 * |align|
    decreases |align|
  {
    if align != [] {
      AlignSize(align[1..]);
      var fs := AlignFields(align);
      assert fs[1..][1..] == AlignFields(align[1..]);
      assert SizeAll(fs) == 8 + SizeAll(fs[1..]) == 16 + SizeAll(fs[1..][1..]);
    }
  }

  lemma {:induction false} ScoreSize(scores: seq<real>)
    ensures SizeAll(ScoreFields(scores)) == 4 * |scores|
    decreases |scores|
  {
    if scores != [] {
      ScoreSize(scores[1..]);
      assert ScoreFields(scores)[1..] == ScoreFields(scores[1..]);
    }
  }

  // ---------------------------------------------------------------- saving and reading a collection

  function InfosFields(ps: seq<nat>, tps: seq<TargetPhrase>): seq<Field>
    requires |ps| == |tps|
  {
    if tps == [] then [] else InfosFields(ps[..|ps| - 1], tps[..|tps| - 1]) + InfoFields(ps[|ps| - 1], tps[|tps| - 1])
  }

  ghost predicate PhrasesAt(ind: Bytes, ps: seq<nat>, tps: seq<TargetPhrase>) {
    |ps| == |tps| && forall k {:trigger ps[k]} {:trigger tps[k]} :: 0 <= k < |ps| ==>
        0 < ps[k] && Layout(ind, ps[k], PhraseFields(tps[k].words))
  }

  lemma {:induction false} EntriesAppend(files: Files, pos: nat, tps: seq<TargetPhrase>, tp: TargetPhrase, at: nat)
    requires EntriesAt(files, pos, tps) && EntryAt(files, at, tp) && at == pos + SizeOf(tps)
    ensures EntriesAt(files, pos, tps + [tp])
    decreases |tps|
  {
    if tps != [] {
      assert (tps + [tp])[1..] == tps[1..] + [tp];
      EntriesAppend(files, pos + InfoSize(tps[0]), tps[1..], tp, at);
    } else {
      assert (tps + [tp])[1..] == [];
    }
  }

  function SizeOf(tps: seq<TargetPhrase>): nat {
    if tps == [] then 0 else InfoSize(tps[0]) + SizeOf(tps[1..])
  }

  lemma {:induction false} SizeOfAppend(tps: seq<TargetPhrase>, tp: TargetPhrase)
    ensures SizeOf(tps + [tp]) == SizeOf(tps) + InfoSize(tp)
    decreases |tps|
  {
    if tps != [] {
      assert (tps + [tp])[1..] == tps[1..] + [tp];
      SizeOfAppend(tps[1..], tp);
    } else {
      assert (tps + [tp])[1..] == [];
    }
  }

  lemma {:induction false} InfosAreEntries(files: Files, pos: nat, ps: seq<nat>, tps: seq<TargetPhrase>)
    requires PhrasesAt(files.ind, ps, tps) && Layout(files.coll, pos, InfosFields(ps, tps))
    ensures EntriesAt(files, pos, tps) && SizeAll(InfosFields(ps, tps)) == SizeOf(tps)
    decreases |tps|
  {
    if tps == [] {
      return;
    }
    var k := |tps| - 1;
    var before, info := InfosFields(ps[..k], tps[..k]), InfoFields(ps[k], tps[k]);
    LayoutParts(files.coll, pos, before, info);
    FewerPhrases(files.ind, ps, tps, k);
    InfosAreEntries(files, pos, ps[..k], tps[..k]);
    LastEntry(files, pos, tps[..k], tps[k], ps[k]);
    InfoSizeIs(ps[k], tps[k]);
    assert tps == tps[..k] + [tps[k]];
  }

  lemma {:induction false} FewerPhrases(ind: Bytes, ps: seq<nat>, tps: seq<TargetPhrase>, k: nat)
    requires PhrasesAt(ind, ps, tps) && k <= |ps|
    ensures PhrasesAt(ind, ps[..k], tps[..k])
  {
  }

  lemma {:induction false} LastEntry(files: Files, pos: nat, tps: seq<TargetPhrase>, tp: TargetPhrase, p: nat)
    requires EntriesAt(files, pos, tps) && 0 < p && Layout(files.coll, pos + SizeOf(tps), InfoFields(p, tp))
    requires Layout(files.ind, p, PhraseFields(tp.words))
    ensures EntriesAt(files, pos, tps + [tp]) && SizeOf(tps + [tp]) == SizeOf(tps) + InfoSize(tp)
  {
    assert EntryAt(files, pos + SizeOf(tps), tp);
    EntriesAppend(files, pos, tps, tp, pos + SizeOf(tps));
    SizeOfAppend(tps, tp);
  }

  /** TargetPhrase::Save. */
  method SavePhrase(ind: Bytes, words: seq<Word>) returns (r: Bytes, pos: nat)
    ensures pos == |ind| && r == ind + EncodeAll(PhraseFields(words)) && Layout(r, pos, PhraseFields(words))
  {
    pos := |ind|;
    Appended(ind, PhraseFields(words));
    r := ind + EncodeAll(PhraseFields(words));
  }

  /** TargetPhraseCollection::Save: phrases to one file, the collection to another. */
  method SaveColl(files: Files, tps: seq<TargetPhrase>) returns (r: Files, pos: nat)
    requires files.ind != [] && files.coll != []
    ensures Grown(files, r) && r.source == files.source && CollAt(r, pos, tps)
  {
    var ind := files.ind;
    var mem := [];
    ghost var ps: seq<nat> := [];
    for i := 0 to |tps|
      invariant Extends(files.ind, ind) && PhrasesAt(ind, ps, tps[..i]) && mem == InfosFields(ps, tps[..i])
    {
      var at;
      ghost var before := ind;
      ind, at := SavePhrase(ind, tps[i].words);
      MorePhrases(before, ind, ps, tps, i, at);
      mem := mem + InfoFields(at, tps[i]);
      ps := ps + [at];
    }
    assert tps[..|tps|] == tps;
    pos := |files.coll|;
    r := Files(files.source, ind, files.coll + EncodeAll([Num(|tps|)] + mem));
    Appended(files.coll, [Num(|tps|)] + mem);
    CollSaved(r, pos, ps, tps);
  }

  lemma {:induction false} CollSaved(files: Files, pos: nat, ps: seq<nat>, tps: seq<TargetPhrase>)
    requires 0 < pos && PhrasesAt(files.ind, ps, tps) && Layout(files.coll, pos, [Num(|tps|)] + InfosFields(ps, tps))
    ensures CollAt(files, pos, tps)
  {
    var n := [Num(|tps|)];
    LayoutParts(files.coll, pos, n, InfosFields(ps, tps));
    assert SizeAll(n) == 8 + SizeAll(n[1..]);
    InfosAreEntries(files, pos + 8, ps, tps);
  }

  lemma {:induction false} MorePhrases(ind: Bytes, longer: Bytes, ps: seq<nat>, tps: seq<TargetPhrase>, i: nat, at: nat)
    requires i < |tps| && PhrasesAt(ind, ps, tps[..i]) && Extends(ind, longer)
    requires 0 < at && Layout(longer, at, PhraseFields(tps[i].words))
    ensures PhrasesAt(longer, ps + [at], tps[..i + 1])
    ensures InfosFields(ps + [at], tps[..i + 1]) == InfosFields(ps, tps[..i]) + InfoFields(at, tps[i])
  {
    PhrasesKept(ind, longer, ps, tps[..i]);
    assert (ps + [at])[..i] == ps && tps[..i + 1][..i] == tps[..i];
    forall k | 0 <= k <= i
      ensures 0 < (ps + [at])[k] && Layout(longer, (ps + [at])[k], PhraseFields(tps[..i + 1][k].words))
    {
      assert k < i ==> tps[..i][k] == tps[k];
    }
  }

  lemma {:induction false} PhrasesKept(ind: Bytes, longer: Bytes, ps: seq<nat>, tps: seq<TargetPhrase>)
    requires PhrasesAt(ind, ps, tps) && Extends(ind, longer)
    ensures PhrasesAt(longer, ps, tps)
  {
    forall k | 0 <= k < |ps|
      ensures 0 < ps[k] && Layout(longer, ps[k], PhraseFields(tps[k].words))
    {
      LayoutKept(ind, longer, ps[k], PhraseFields(tps[k].words));
    }
  }

  /** A target phrase with its scores as they are read. */
  function TargetRead(tp: TargetPhrase, log: real -> real): TargetPhrase {
    tp.(scores := ScoresRead(tp.scores, log))
  }

  function TargetsRead(tps: seq<TargetPhrase>, log: real -> real): (r: seq<TargetPhrase>)
    ensures |r| == |tps|
  {
    seq(|tps|, k requires 0 <= k < |tps| => TargetRead(tps[k], log))
  }

  /** One entry of a collection, with its words. */
  method ReadEntry(files: Files, pos: nat, numScores: nat, log: real -> real, ghost tp: TargetPhrase)
    returns (r: TargetPhrase, next: nat)
    requires EntryAt(files, pos, tp) && |tp.scores| == numScores
    ensures r == TargetRead(tp, log) && next == pos + InfoSize(tp)
  {
    ghost var p: nat :| 0 < p && Layout(files.coll, pos, InfoFields(p, tp))
      && Layout(files.ind, p, PhraseFields(tp.words));
    ghost var fs := InfoFields(p, tp);
    ReadsFirst(files.coll, pos, fs);
    ReadsFirst(files.coll, pos + 8, fs[1..]);
    assert fs[1..][1..] == AlignFields(tp.align) + ScoreFields(tp.scores);
    var align, at := ReadAlign(files.coll, pos + 16, ReadNum(files.coll, pos + 8), tp.align, ScoreFields(tp.scores));
    var scores, end := ReadScores(files.coll, at, numScores, log, tp.scores);
    var words := ReadPhrase(files.ind, ReadNum(files.coll, pos), tp.words);
    r, next := TargetPhrase(words, align, scores), end;
  }

  /** TargetPhraseCollection::ReadFromFile: the first `tableLimit` phrases of what was saved. */
  method ReadColl(files: Files, pos: nat, tableLimit: nat, numScores: nat, log: real -> real,
                  ghost tps: seq<TargetPhrase>)
    returns (r: seq<TargetPhrase>)
    requires CollAt(files, pos, tps) && forall k {:trigger tps[k]} :: 0 <= k < |tps| ==> |tps[k].scores| == numScores
    ensures r == TargetsRead(tps[..if tableLimit < |tps| then tableLimit else |tps|], log)
  {
    ReadsFirst(files.coll, pos, [Num(|tps|)]);
    var numPhrases := ReadNum(files.coll, pos);
    if tableLimit < numPhrases {
      numPhrases := tableLimit;
    }
    r := [];
    var at: nat := pos + 8;
    for i := 0 to numPhrases
      invariant r == TargetsRead(tps[..i], log) && EntriesAt(files, at, tps[i..])
    {
      var tp;
      tp, at := ReadEntry(files, at, numScores, log, tps[i]);
      r := r + [tp];
      assert tps[i..][1..] == tps[i + 1..];
    }
  }

  // ---------------------------------------------------------------- the best target phrases

  predicate Sorted(tps: seq<TargetPhrase>, ind: nat)
    requires forall k {:trigger tps[k]} :: 0 <= k < |tps| ==> ind < |tps[k].scores|
  {
    forall i, j {:trigger tps[i], tps[j]} :: 0 <= i < j < |tps| ==> tps[i].scores[ind] >= tps[j].scores[ind]
  }

  ghost predicate Scored(tps: seq<TargetPhrase>, numScores: nat) {
    forall k {:trigger tps[k]} :: 0 <= k < |tps| ==> |tps[k].scores| == numScores
  }

  /** `r` is sorted by score, and nothing left out scores better; ties are left open. */
  ghost predicate IsBest(r: seq<TargetPhrase>, all: seq<TargetPhrase>, tableLimit: nat, numScores: nat, ind: nat)
    requires ind < numScores
  {
    exists rest {:trigger Split(r, rest, all, numScores, ind)} :: Split(r, rest, all, numScores, ind)
      && (rest == [] || |r| == tableLimit) && |r| <= tableLimit
  }

  ghost predicate Split(r: seq<TargetPhrase>, rest: seq<TargetPhrase>, all: seq<TargetPhrase>, numScores: nat, ind: nat)
    requires ind < numScores
  {
    multiset(r + rest) == multiset(all) && Scored(r + rest, numScores) && Sorted(r + rest, ind)
  }

  /** TargetPhraseCollection::Sort; the library's sort is not stable, any order of ties will do. */
  method SortBest(all: seq<TargetPhrase>, tableLimit: nat, numScores: nat, ind: nat) returns (r: seq<TargetPhrase>)
    requires ind < numScores && Scored(all, numScores)
    ensures IsBest(r, all, tableLimit, numScores, ind)
  {
    var sorted: seq<TargetPhrase> := [];
    for i := 0 to |all|
      invariant multiset(sorted) == multiset(all[..i]) && Scored(sorted, numScores) && Sorted(sorted, ind)
    {
      assert all[..i + 1] == all[..i] + [all[i]];
      sorted := InsertByScore(sorted, all[i], numScores, ind);
    }
    assert all[..|all|] == all;
    r := sorted[..if tableLimit < |sorted| then tableLimit else |sorted|];
    ghost var rest := sorted[|r|..];
    assert r + rest == sorted;
    assert Split(r, rest, all, numScores, ind);
  }

  method InsertByScore(sorted: seq<TargetPhrase>, tp: TargetPhrase, numScores: nat, ind: nat)
    returns (r: seq<TargetPhrase>)
    requires ind < numScores && Scored(sorted, numScores) && |tp.scores| == numScores && Sorted(sorted, ind)
    ensures multiset(r) == multiset(sorted) + multiset{tp} && Scored(r, numScores) && Sorted(r, ind)
  {
    var k := 0;
    while k < |sorted| && sorted[k].scores[ind] >= tp.scores[ind]
      invariant 0 <= k <= |sorted| && forall i {:trigger sorted[i]} :: 0 <= i < k ==>
                  sorted[i].scores[ind] >= tp.scores[ind]
    {
      k := k + 1;
    }
    r := sorted[..k] + [tp] + sorted[k..];
    InsertedAt(sorted, tp, numScores, ind, k);
    InsertedSame(sorted, tp, k);
  }

  lemma {:induction false} InsertedSame(tps: seq<TargetPhrase>, tp: TargetPhrase, k: nat)
    requires k <= |tps|
    ensures multiset(tps[..k] + [tp] + tps[k..]) == multiset(tps) + multiset{tp}
  {
    assert tps == tps[..k] + tps[k..];
  }

  lemma {:induction false} InsertedAt(tps: seq<TargetPhrase>, tp: TargetPhrase, numScores: nat, ind: nat, k: nat)
    requires ind < numScores && Scored(tps, numScores) && |tp.scores| == numScores && Sorted(tps, ind) && k <= |tps|
    requires forall i {:trigger tps[i]} :: 0 <= i < k ==> tps[i].scores[ind] >= tp.scores[ind]
    requires k < |tps| ==> tps[k].scores[ind] <= tp.scores[ind]
    ensures Scored(tps[..k] + [tp] + tps[k..], numScores) && Sorted(tps[..k] + [tp] + tps[k..], ind)
  {
    var r := tps[..k] + [tp] + tps[k..];
    forall i | 0 <= i < |r|
      ensures r[i] == if i < k then tps[i] else if i == k then tp else tps[i - 1]
    {
    }
  }
}
