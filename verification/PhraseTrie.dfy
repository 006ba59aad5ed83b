/**
 The on-disk phrase trie of OnDiskPt/src/PhraseNode.cpp.  Lines are added one by one; a node
 is written, behind its children, as soon as another child of its parent is started.  Saved
 nodes are found again by binary search.

 A node holds at most one child that is not saved, the current one.  Saved children are kept
 as the sorted list that std::map iterates over.
 */
module PhraseTrie {
  import opened OnDiskFile
  import opened Options

  const DEFAULT_COUNT := 66666.0

  datatype Line = Line(source: seq<Word>, target: TargetPhrase, count: real)

  // ---------------------------------------------------------------- what the lines say

  /** The lines whose source starts with `w`, without it. */
  function Sub(lines: seq<Line>, w: Word): (r: seq<Line>)
    ensures |r| <= |lines|
  {
    if lines == [] then []
    else
      var last := lines[|lines| - 1];
      Sub(lines[..|lines| - 1], w) +
      if last.source != [] && last.source[0] == w then [last.(source := last.source[1..])] else []
  }

  function SubAll(lines: seq<Line>, phrase: seq<Word>): seq<Line>
    decreases |phrase|
  {
    if phrase == [] then lines else SubAll(Sub(lines, phrase[0]), phrase[1..])
  }

  /** The targets of the lines whose source is empty, in order. */
  function Targets(lines: seq<Line>): seq<TargetPhrase> {
    if lines == [] then []
    else
      var last := lines[|lines| - 1];
      Targets(lines[..|lines| - 1]) + if last.source == [] then [last.target] else []
  }

  function LastCount(lines: seq<Line>): real {
    if lines == [] then DEFAULT_COUNT
    else if lines[|lines| - 1].source == [] then lines[|lines| - 1].count
    else LastCount(lines[..|lines| - 1])
  }

  /** The first word of the last source that has one. */
  function LastFirst(lines: seq<Line>): Option<Word> {
    if lines == [] then None
    else if lines[|lines| - 1].source != [] then Some(lines[|lines| - 1].source[0])
    else LastFirst(lines[..|lines| - 1])
  }

  /** Each word of the phrase is new in its place, or was the last one there. */
  predicate Continues(lines: seq<Line>, phrase: seq<Word>)
    decreases |phrase|
  {
    phrase == [] ||
    ((Sub(lines, phrase[0]) == [] || LastFirst(lines) == Some(phrase[0]))
      && Continues(Sub(lines, phrase[0]), phrase[1..]))
  }

  /** No source prefix comes back once it has been left. */
  predicate Grouped(lines: seq<Line>) {
    lines == [] || (Grouped(lines[..|lines| - 1]) && Continues(lines[..|lines| - 1], lines[|lines| - 1].source))
  }

  function Depth(lines: seq<Line>): nat {
    if lines == [] then 0
    else
      var d, n := Depth(lines[..|lines| - 1]), |lines[|lines| - 1].source|;
      if d > n then d else n
  }

  lemma {:induction false} SubShallower(lines: seq<Line>, w: Word)
    ensures Depth(Sub(lines, w)) <= Depth(lines)
    ensures Sub(lines, w) != [] ==> Depth(Sub(lines, w)) < Depth(lines)
    decreases |lines|
  {
    if lines != [] {
      var before, last := lines[..|lines| - 1], lines[|lines| - 1];
      SubShallower(before, w);
      if last.source != [] && last.source[0] == w {
        var r := Sub(lines, w);
        assert r[..|r| - 1] == Sub(before, w);
      } else {
        assert Sub(lines, w) == Sub(before, w);
      }
    }
  }

  lemma {:induction false} SubAppend(lines: seq<Line>, line: Line, w: Word)
    ensures Sub(lines + [line], w) ==
            if line.source != [] && line.source[0] == w then Sub(lines, w) + [line.(source := line.source[1..])]
            else Sub(lines, w)
    ensures LastFirst(lines + [line]) == if line.source != [] then Some(line.source[0]) else LastFirst(lines)
    ensures Targets(lines + [line]) == if line.source == [] then Targets(lines) + [line.target] else Targets(lines)
    ensures LastCount(lines + [line]) == if line.source == [] then line.count else LastCount(lines)
  {
    assert (lines + [line])[..|lines|] == lines;
  }

  // ---------------------------------------------------------------- nodes in the file

  /** A child: its word, and where its node is. */
  datatype Kid = Kid(word: Word, filePos: nat)

  predicate Ordered(kids: seq<Kid>) {
    forall i, j {:trigger kids[i], kids[j]} :: 0 <= i < j < |kids| ==> Less(kids[i].word, kids[j].word)
  }

  predicate Has(kids: seq<Kid>, w: Word) {
    exists i {:trigger kids[i]} :: 0 <= i < |kids| && kids[i].word == w
  }

  const KID_SIZE := 17

  function KidsFields(kids: seq<Kid>): seq<Field> {
    if kids == [] then [] else WordFields(kids[0].word) + ([Num(kids[0].filePos)] + KidsFields(kids[1..]))
  }

  function NodeFields(kids: seq<Kid>, value: nat, count: real): seq<Field> {
    [Num(|kids|), Num(value), Float(count)] + KidsFields(kids)
  }

  /** GetNodeSize, for one count and words of one factor. */
  function GetNodeSize(numChildren: nat): nat {
    8 * 2 + (WORD_SIZE + 8) * numChildren + 4
  }

  lemma {:induction false} KidsSize(kids: seq<Kid>)
    ensures SizeAll(KidsFields(kids)) == KID_SIZE * |kids|
    decreases |kids|
  {
    if kids != [] {
      KidsSize(kids[1..]);
      var fs := KidsFields(kids);
      assert fs[1..][1..] == [Num(kids[0].filePos)] + KidsFields(kids[1..]);
      assert fs[1..][1..][1..] == KidsFields(kids[1..]);
      assert SizeAll(fs) == 8 + SizeAll(fs[1..]) == 9 + SizeAll(fs[1..][1..]) == 17 + SizeAll(fs[1..][1..][1..]);
    }
  }

  lemma {:induction false} NodeSizeIs(kids: seq<Kid>, value: nat, count: real)
    ensures SizeAll(NodeFields(kids, value, count)) == GetNodeSize(|kids|)
  {
    KidsSize(kids);
    var fs := NodeFields(kids, value, count);
    assert fs[1..][1..][1..] == KidsFields(kids);
    assert SizeAll(fs) == 8 + SizeAll(fs[1..]) == 16 + SizeAll(fs[1..][1..]) == 20 + SizeAll(fs[1..][1..][1..]);
  }

  predicate NodeAt(source: Bytes, pos: nat, kids: seq<Kid>, value: nat, count: real) {
    0 < pos && Layout(source, pos, NodeFields(kids, value, count))
  }

  /** How the targets are cut: the table limit, the number of scores and the score to sort by. */
  datatype Config = Config(tableLimit: nat, numScores: nat, sortScore: nat)

  predicate ConfigOk(cfg: Config) {
    cfg.sortScore < cfg.numScores
  }

  /** What the node at `pos` holds of the lines that lead to it. */
  ghost predicate Content(files: Files, pos: nat, lines: seq<Line>, cfg: Config, kids: seq<Kid>, value: nat,
                          tps: seq<TargetPhrase>)
    requires ConfigOk(cfg)
  {
    && NodeAt(files.source, pos, kids, value, LastCount(lines)) && Ordered(kids)
    && CollAt(files, value, tps) && IsBest(tps, Targets(lines), cfg.tableLimit, cfg.numScores, cfg.sortScore)
    && (forall i {:trigger kids[i]} :: 0 <= i < |kids| ==> kids[i].filePos < pos && Sub(lines, kids[i].word) != [])
    && (forall w {:trigger Sub(lines, w)} :: Sub(lines, w) != [] ==> Has(kids, w))
  }

  /** The node at `pos` and all below it say what the lines say. */
  ghost predicate Stored(files: Files, pos: nat, lines: seq<Line>, cfg: Config)
    requires ConfigOk(cfg)
    decreases Depth(lines), 1
  {
    exists kids: seq<Kid>, value: nat,
      tps: seq<TargetPhrase> {:trigger Content(files, pos, lines, cfg, kids, value, tps)} ::
      Content(files, pos, lines, cfg, kids, value, tps) && KidsStored(files, lines, cfg, kids)
  }

  ghost predicate KidsStored(files: Files, lines: seq<Line>, cfg: Config, kids: seq<Kid>)
    requires ConfigOk(cfg)
    decreases Depth(lines), 0
  {
    forall i {:trigger kids[i]} :: 0 <= i < |kids| ==>
      && Sub(lines, kids[i].word) != []
      && (SubShallower(lines, kids[i].word); Stored(files, kids[i].filePos, Sub(lines, kids[i].word), cfg))
  }

  lemma {:induction false} ContentKept(f: Files, g: Files, pos: nat, lines: seq<Line>, cfg: Config, kids: seq<Kid>,
                                       value: nat, tps: seq<TargetPhrase>)
    requires ConfigOk(cfg) && Content(f, pos, lines, cfg, kids, value, tps) && Grown(f, g)
    ensures Content(g, pos, lines, cfg, kids, value, tps)
  {
    LayoutKept(f.source, g.source, pos, NodeFields(kids, value, LastCount(lines)));
    CollKept(f, g, value, tps);
  }

  /** Appending to the files changes no node. */
  lemma {:induction false} StoredKept(f: Files, g: Files, pos: nat, lines: seq<Line>, cfg: Config)
    requires ConfigOk(cfg) && Stored(f, pos, lines, cfg) && Grown(f, g)
    ensures Stored(g, pos, lines, cfg)
    decreases Depth(lines), 1
  {
    var kids: seq<Kid>, value: nat, tps: seq<TargetPhrase> :|
      Content(f, pos, lines, cfg, kids, value, tps) && KidsStored(f, lines, cfg, kids);
    ContentKept(f, g, pos, lines, cfg, kids, value, tps);
    KidsKept(f, g, lines, cfg, kids);
  }

  lemma {:induction false} KidsKept(f: Files, g: Files, lines: seq<Line>, cfg: Config, kids: seq<Kid>)
    requires ConfigOk(cfg) && KidsStored(f, lines, cfg, kids) && Grown(f, g)
    ensures KidsStored(g, lines, cfg, kids)
    decreases Depth(lines), 0
  {
    forall i | 0 <= i < |kids|
      ensures Stored(g, kids[i].filePos, Sub(lines, kids[i].word), cfg)
    {
      SubShallower(lines, kids[i].word);
      StoredKept(f, g, kids[i].filePos, Sub(lines, kids[i].word), cfg);
    }
  }

  // ---------------------------------------------------------------- nodes in memory

  datatype PhraseNode = PhraseNode(saved: seq<Kid>, curr: Option<Open>, count: real, coll: seq<TargetPhrase>)

  datatype Open = Open(word: Word, node: PhraseNode)

  const NewNode := PhraseNode([], None, DEFAULT_COUNT, [])

  ghost predicate SavedOk(files: Files, saved: seq<Kid>, lines: seq<Line>, cfg: Config)
    requires ConfigOk(cfg)
  {
    && Ordered(saved) && KidsStored(files, lines, cfg, saved)
    && forall i {:trigger saved[i]} :: 0 <= i < |saved| ==> saved[i].filePos < |files.source|
  }

  ghost predicate AllThere(node: PhraseNode, lines: seq<Line>) {
    forall w {:trigger Sub(lines, w)} :: Sub(lines, w) != [] ==>
        Has(node.saved, w) || (node.curr.Some? && node.curr.value.word == w)
  }

  /** What the node in memory, with what it has saved, says of the lines added to it. */
  ghost predicate InMemory(files: Files, node: PhraseNode, lines: seq<Line>, cfg: Config)
    requires ConfigOk(cfg)
    decreases node
  {
    && node.count == LastCount(lines) && node.coll == Targets(lines) && Scored(node.coll, cfg.numScores)
    && SavedOk(files, node.saved, lines, cfg) && AllThere(node, lines)
    && match node.curr
       case None => LastFirst(lines).None?
       case Some(open) =>
         && LastFirst(lines) == Some(open.word) && Sub(lines, open.word) != [] && !Has(node.saved, open.word)
         && InMemory(files, open.node, Sub(lines, open.word), cfg)
  }

  lemma {:induction false} InMemoryKept(f: Files, g: Files, node: PhraseNode, lines: seq<Line>, cfg: Config)
    requires ConfigOk(cfg) && InMemory(f, node, lines, cfg) && Grown(f, g)
    ensures InMemory(g, node, lines, cfg)
    decreases node
  {
    KidsKept(f, g, lines, cfg, node.saved);
    if node.curr.Some? {
      InMemoryKept(f, g, node.curr.value.node, Sub(lines, node.curr.value.word), cfg);
    }
  }

  /** A child takes its place in the order of the map. */
  method InsertKid(kids: seq<Kid>, kid: Kid) returns (r: seq<Kid>, ghost k: nat)
    requires Ordered(kids) && !Has(kids, kid.word)
    ensures k <= |kids| && r == kids[..k] + [kid] + kids[k..] && Ordered(r)
  {
    var i := 0;
    while i < |kids| && Less(kids[i].word, kid.word)
      invariant 0 <= i <= |kids| && forall j {:trigger kids[j]} :: 0 <= j < i ==> Less(kids[j].word, kid.word)
    {
      i := i + 1;
    }
    k := i;
    r := kids[..i] + [kid] + kids[i..];
    InsertedOrdered(kids, kid, i);
  }

  lemma {:induction false} InsertedOrdered(kids: seq<Kid>, kid: Kid, k: nat)
    requires Ordered(kids) && k <= |kids| && !Has(kids, kid.word)
    requires forall j {:trigger kids[j]} :: 0 <= j < k ==> Less(kids[j].word, kid.word)
    requires k < |kids| ==> !Less(kids[k].word, kid.word)
    ensures Ordered(kids[..k] + [kid] + kids[k..])
  {
    var r := kids[..k] + [kid] + kids[k..];
    forall i | 0 <= i < |r|
      ensures r[i] == if i < k then kids[i] else if i == k then kid else kids[i - 1]
    {
    }
    forall j | k <= j < |kids|
      ensures Less(kid.word, kids[j].word)
    {
      assert j > k ==> Less(kids[k].word, kids[j].word);
      assert kids[k].word != kid.word;
    }
  }

  /** The children with one more: what was true of each stays true, and the new one is there. */
  lemma {:induction false} InsertedStored(files: Files, lines: seq<Line>, cfg: Config, kids: seq<Kid>, kid: Kid,
                                          r: seq<Kid>)
    requires ConfigOk(cfg) && SavedOk(files, kids, lines, cfg) && Ordered(r)
    requires forall i {:trigger r[i]} :: 0 <= i < |r| ==> r[i] == kid || r[i] in kids
    requires Sub(lines, kid.word) != [] && Stored(files, kid.filePos, Sub(lines, kid.word), cfg)
             && kid.filePos < |files.source|
    ensures SavedOk(files, r, lines, cfg)
  {
    forall i | 0 <= i < |r|
      ensures Sub(lines, r[i].word) != [] && Stored(files, r[i].filePos, Sub(lines, r[i].word), cfg)
              && r[i].filePos < |files.source|
    {
      if r[i] in kids {
        var j :| 0 <= j < |kids| && kids[j] == r[i];
      }
    }
  }

  lemma {:induction false} InsertedIndex(kids: seq<Kid>, kid: Kid, k: nat)
    requires k <= |kids|
    ensures var r := kids[..k] + [kid] + kids[k..];
            |r| == |kids| + 1 && forall i {:trigger r[i]} :: 0 <= i < |r| ==>
                r[i] == if i < k then kids[i] else if i == k then kid else kids[i - 1]
  {
  }

  lemma {:induction false} InsertedHas(kids: seq<Kid>, kid: Kid, k: nat, w: Word)
    requires k <= |kids|
    ensures Has(kids[..k] + [kid] + kids[k..], w) <==> (Has(kids, w) || w == kid.word)
  {
    var r := kids[..k] + [kid] + kids[k..];
    InsertedIndex(kids, kid, k);
    if Has(kids, w) {
      var i :| 0 <= i < |kids| && kids[i].word == w;
      assert r[if i < k then i else i + 1] == kids[i];
    }
    assert r[k] == kid;
  }

  // ---------------------------------------------------------------- each node once

  /** A node as it was written, and the source prefix it stands for. */
  datatype Written = Written(path: seq<Word>, kids: seq<Kid>, value: nat, count: real)

  /** The file that holds these nodes, one behind the other, and nothing else. */
  function Image(log: seq<Written>): Bytes {
    if log == [] then Encode(Char(255))
    else
      var n := |log| - 1;
      Image(log[..n]) + EncodeAll(NodeFields(log[n].kids, log[n].value, log[n].count))
  }

  ghost predicate Distinct(log: seq<Written>) {
    forall i, j {:trigger log[i], log[j]} :: 0 <= i < j < |log| ==> log[i].path != log[j].path
  }

  ghost predicate Logged(source: Bytes, log: seq<Written>) {
    source == Image(log) && Distinct(log)
  }

  /** The node for `path` + `q` has been written. */
  ghost predicate InAt(log: seq<Written>, path: seq<Word>, q: seq<Word>) {
    exists i {:trigger log[i]} :: 0 <= i < |log| && log[i].path == path + q
  }

  /** Only nodes at or below `path` have been added. */
  ghost predicate Wrote(log: seq<Written>, more: seq<Written>, path: seq<Word>) {
    log <= more && forall i {:trigger more[i]} :: |log| <= i < |more| ==> path <= more[i].path
  }

  /** What is below the node and has been saved: everything but the current child and its own open part. */
  predicate Done(node: PhraseNode, lines: seq<Line>, q: seq<Word>)
    decreases node
  {
    q != [] &&
    if node.curr.Some? && node.curr.value.word == q[0] then Done(node.curr.value.node, Sub(lines, q[0]), q[1..])
    else SubAll(lines, q) != []
  }

  ghost predicate SoFar(log: seq<Written>, path: seq<Word>, node: PhraseNode, lines: seq<Line>) {
    forall q {:trigger InAt(log, path, q)} :: InAt(log, path, q) <==> Done(node, lines, q)
  }

  ghost predicate BelowIn(log: seq<Written>, path: seq<Word>, lines: seq<Line>) {
    forall q {:trigger InAt(log, path, q)} :: InAt(log, path, q) <==> q != [] && SubAll(lines, q) != []
  }

  ghost predicate AllIn(log: seq<Written>, path: seq<Word>, lines: seq<Line>) {
    forall q {:trigger InAt(log, path, q)} :: InAt(log, path, q) <==> q == [] || SubAll(lines, q) != []
  }

  lemma {:induction false} InBelow(log: seq<Written>, path: seq<Word>, w: Word, q: seq<Word>)
    ensures InAt(log, path + [w], q) <==> InAt(log, path, [w] + q)
  {
    assert path + [w] + q == path + ([w] + q);
  }

  /** Nodes elsewhere are not affected. */
  lemma {:induction false} InElsewhere(log: seq<Written>, more: seq<Written>, path: seq<Word>, w: Word, q: seq<Word>)
    requires Wrote(log, more, path + [w]) && (q == [] || q[0] != w)
    ensures InAt(more, path, q) <==> InAt(log, path, q)
  {
    if InAt(log, path, q) {
      var i :| 0 <= i < |log| && log[i].path == path + q;
      assert more[i] == log[i];
    }
    if InAt(more, path, q) {
      var i :| 0 <= i < |more| && more[i].path == path + q;
      if |log| <= i {
        Behind(path, w, q);
      }
      assert log[i] == more[i];
    }
  }

  lemma {:induction false} Behind(path: seq<Word>, w: Word, q: seq<Word>)
    requires path + [w] <= path + q
    ensures q != [] && q[0] == w
  {
    assert (path + q)[|path|] == (path + [w])[|path|];
  }

  lemma {:induction false} HeadAndTail(q: seq<Word>)
    requires q != []
    ensures q == [q[0]] + q[1..]
  {
  }

  /** The current child sees its own part of the log. */
  lemma {:induction false} CurrentSoFar(log: seq<Written>, path: seq<Word>, node: PhraseNode, lines: seq<Line>)
    requires SoFar(log, path, node, lines) && node.curr.Some?
    ensures SoFar(log, path + [node.curr.value.word], node.curr.value.node, Sub(lines, node.curr.value.word))
  {
    var w := node.curr.value.word;
    forall q {:trigger InAt(log, path + [w], q)}
      ensures InAt(log, path + [w], q) <==> Done(node.curr.value.node, Sub(lines, w), q)
    {
      InBelow(log, path, w, q);
      assert ([w] + q)[1..] == q;
    }
  }

  /** Once the current child is saved, everything below is in. */
  lemma {:induction false} CurrentSaved(log: seq<Written>, more: seq<Written>, path: seq<Word>, node: PhraseNode,
                                        lines: seq<Line>)
    requires SoFar(log, path, node, lines) && node.curr.Some? && Wrote(log, more, path + [node.curr.value.word])
    requires AllIn(more, path + [node.curr.value.word], Sub(lines, node.curr.value.word))
             && Sub(lines, node.curr.value.word) != []
    ensures BelowIn(more, path, lines)
  {
    var w := node.curr.value.word;
    forall q {:trigger InAt(more, path, q)}
      ensures InAt(more, path, q) <==> q != [] && SubAll(lines, q) != []
    {
      if q != [] && q[0] == w {
        HeadAndTail(q);
        InBelow(more, path, w, q[1..]);
        assert InAt(more, path + [w], q[1..]) <==> q[1..] == [] || SubAll(Sub(lines, w), q[1..]) != [];
      } else {
        InElsewhere(log, more, path, w, q);
      }
    }
  }

  lemma {:induction false} WroteMore(log: seq<Written>, more: seq<Written>, path: seq<Word>, w: Word)
    requires Wrote(log, more, path + [w])
    ensures Wrote(log, more, path)
  {
    forall i | |log| <= i < |more|
      ensures path <= more[i].path
    {
      assert path + [w] <= more[i].path;
      assert path == (path + [w])[..|path|];
    }
  }

  lemma {:induction false} WroteBoth(log: seq<Written>, mid: seq<Written>, more: seq<Written>, path: seq<Word>)
    requires Wrote(log, mid, path) && Wrote(mid, more, path)
    ensures Wrote(log, more, path)
  {
    forall i | |log| <= i < |more|
      ensures path <= more[i].path
    {
      assert i < |mid| ==> more[i] == mid[i];
    }
  }

  /** The node itself comes last. */
  lemma {:induction false} NodeWritten(log: seq<Written>, path: seq<Word>, lines: seq<Line>, source: Bytes,
                                       rec: Written)
    requires Logged(source, log) && BelowIn(log, path, lines) && rec.path == path
    ensures Logged(source + EncodeAll(NodeFields(rec.kids, rec.value, rec.count)), log + [rec])
    ensures AllIn(log + [rec], path, lines) && Wrote(log, log + [rec], path)
  {
    var more := log + [rec];
    assert more[..|log|] == log && path + [] == path;
    assert !InAt(log, path, []);
    forall q {:trigger InAt(more, path, q)}
      ensures InAt(more, path, q) <==> q == [] || SubAll(lines, q) != []
    {
      if InAt(log, path, q) {
        var i :| 0 <= i < |log| && log[i].path == path + q;
        assert more[i] == log[i];
      }
      assert more[|log|] == rec;
      if InAt(more, path, q) {
        var i :| 0 <= i < |more| && more[i].path == path + q;
        assert i < |log| ==> log[i] == more[i];
      }
    }
  }

  /** A line that goes into the child for `w` leaves all other children as they are. */
  lemma {:induction false} SameElsewhere(lines: seq<Line>, line: Line, q: seq<Word>)
    requires q != [] && (line.source == [] || line.source[0] != q[0])
    ensures SubAll(lines + [line], q) == SubAll(lines, q)
  {
    SubAppend(lines, line, q[0]);
  }

  /** After the line has gone into the current child. */
  lemma {:induction false} AddedSoFar(log: seq<Written>, more: seq<Written>, path: seq<Word>, child: PhraseNode,
                                      r: PhraseNode, line: Line, lines: seq<Line>)
    requires line.source != [] && r.curr == Some(Open(line.source[0], child))
             && Wrote(log, more, path + [line.source[0]])
    requires SoFar(more, path + [line.source[0]], child,
                   Sub(lines, line.source[0]) + [line.(source := line.source[1..])])
    requires forall q {:trigger InAt(log, path, q)} :: q == [] || q[0] != line.source[0] ==>
               (InAt(log, path, q) <==> q != [] && SubAll(lines, q) != [])
    ensures SoFar(more, path, r, lines + [line])
  {
    var w := line.source[0];
    SubAppend(lines, line, w);
    forall q {:trigger InAt(more, path, q)}
      ensures InAt(more, path, q) <==> Done(r, lines + [line], q)
    {
      if q != [] && q[0] == w {
        HeadAndTail(q);
        InBelow(more, path, w, q[1..]);
      } else {
        InElsewhere(log, more, path, w, q);
        if q != [] {
          SameElsewhere(lines, line, q);
        }
      }
    }
  }

  /** A line that ends at the node changes nothing below. */
  lemma {:induction false} EndsSoFar(log: seq<Written>, path: seq<Word>, node: PhraseNode, r: PhraseNode, line: Line,
                                     lines: seq<Line>)
    requires SoFar(log, path, node, lines) && line.source == [] && r.curr == node.curr
    ensures SoFar(log, path, r, lines + [line])
  {
    forall q {:trigger InAt(log, path, q)}
      ensures InAt(log, path, q) <==> Done(r, lines + [line], q)
    {
      assert InAt(log, path, q) <==> Done(node, lines, q);
      if q != [] {
        SubAppend(lines, line, q[0]);
      }
    }
  }

  /** A new child has nothing written yet. */
  lemma {:induction false} NewSoFar(log: seq<Written>, path: seq<Word>, w: Word, lines: seq<Line>)
    requires BelowIn(log, path, lines) && Sub(lines, w) == []
    ensures SoFar(log, path + [w], NewNode, [])
  {
    forall q {:trigger InAt(log, path + [w], q)}
      ensures InAt(log, path + [w], q) <==> Done(NewNode, [], q)
    {
      InBelow(log, path, w, q);
      assert ([w] + q)[1..] == q;
      NothingBehind(q);
    }
  }

  // ---------------------------------------------------------------- saving

  /** The files have been begun, and the node agrees with its lines. */
  ghost predicate Building(files: Files, node: PhraseNode, lines: seq<Line>, cfg: Config)
    requires ConfigOk(cfg)
  {
    Begun(files) && InMemory(files, node, lines, cfg)
  }

  predicate Begun(files: Files) {
    files.source != [] && files.ind != [] && files.coll != []
  }

  lemma {:induction false} StillBegun(f: Files, g: Files)
    requires Begun(f) && Grown(f, g)
    ensures Begun(g)
  {
  }

  /** The nodes written are those of the log, among them the saved part of the node at `path`. */
  ghost predicate Tracked(files: Files, log: seq<Written>, path: seq<Word>, node: PhraseNode, lines: seq<Line>) {
    Logged(files.source, log) && SoFar(log, path, node, lines)
  }

  /** The children to be written: those saved, and the current one once it is saved too. */
  method SaveCurrent(files: Files, node: PhraseNode, ghost lines: seq<Line>, cfg: Config, ghost path: seq<Word>,
                     ghost log: seq<Written>)
    returns (g: Files, kids: seq<Kid>, ghost more: seq<Written>)
    requires ConfigOk(cfg) && Building(files, node, lines, cfg) && Tracked(files, log, path, node, lines)
    ensures Grown(files, g) && SavedOk(g, kids, lines, cfg)
    ensures forall w {:trigger Sub(lines, w)} :: Sub(lines, w) != [] ==> Has(kids, w)
    ensures node.curr.None? ==> kids == node.saved
    ensures node.curr.Some? ==> forall w {:trigger Has(node.saved, w)} :: Has(kids, w) <==>
              (Has(node.saved, w) || w == node.curr.value.word)
    ensures Logged(g.source, more) && Wrote(log, more, path) && BelowIn(more, path, lines)
    decreases node, 0
  {
    g, kids, more := files, node.saved, log;
    if node.curr.Some? {
      var open := node.curr.value;
      var pos;
      CurrentSoFar(log, path, node, lines);
      g, pos, more := Save(files, open.node, Sub(lines, open.word), cfg, path + [open.word], log);
      CurrentSaved(log, more, path, node, lines);
      WroteMore(log, more, path, open.word);
      KidsKept(files, g, lines, cfg, node.saved);
      kids := AddKid(g, node.saved, Kid(open.word, pos), lines, cfg);
    }
  }

  method AddKid(files: Files, saved: seq<Kid>, kid: Kid, ghost lines: seq<Line>, cfg: Config) returns (kids: seq<Kid>)
    requires ConfigOk(cfg) && SavedOk(files, saved, lines, cfg) && !Has(saved, kid.word)
    requires Sub(lines, kid.word) != [] && Stored(files, kid.filePos, Sub(lines, kid.word), cfg)
             && kid.filePos < |files.source|
    ensures SavedOk(files, kids, lines, cfg)
    ensures forall w {:trigger Has(kids, w)} {:trigger Has(saved, w)} :: Has(kids, w) <==>
              (Has(saved, w) || w == kid.word)
  {
    ghost var k;
    kids, k := InsertKid(saved, kid);
    InsertedIndex(saved, kid, k);
    InsertedStored(files, lines, cfg, saved, kid, kids);
    forall w {:trigger Has(kids, w)} {:trigger Has(saved, w)}
      ensures Has(kids, w) <==> (Has(saved, w) || w == kid.word)
    {
      InsertedHas(saved, kid, k, w);
    }
  }

  /** Save: the targets, then the children, then the node behind them. */
  method Save(files: Files, node: PhraseNode, ghost lines: seq<Line>, cfg: Config, ghost path: seq<Word>,
              ghost log: seq<Written>)
    returns (g: Files, pos: nat, ghost more: seq<Written>)
    requires ConfigOk(cfg) && Building(files, node, lines, cfg) && Tracked(files, log, path, node, lines)
    ensures Grown(files, g) && Stored(g, pos, lines, cfg) && 0 < pos < |g.source|
    ensures Logged(g.source, more) && Wrote(log, more, path) && AllIn(more, path, lines)
    decreases node, 2
  {
    var tps := SortBest(node.coll, cfg.tableLimit, cfg.numScores, cfg.sortScore);
    var value, kids;
    g, value, kids, more := SaveBelow(files, node, tps, lines, cfg, path, log);
    pos := |g.source|;
    ghost var rec := Written(path, kids, value, node.count);
    NodeWritten(more, path, lines, g.source, rec);
    WroteBoth(log, more, more + [rec], path);
    more := more + [rec];
    g := WriteNode(g, kids, value, node.count, tps, lines, cfg);
  }

  /** What is saved before the node itself: its targets, and the child not saved yet. */
  method SaveBelow(files: Files, node: PhraseNode, tps: seq<TargetPhrase>, ghost lines: seq<Line>, cfg: Config,
                   ghost path: seq<Word>, ghost log: seq<Written>)
    returns (g: Files, value: nat, kids: seq<Kid>, ghost more: seq<Written>)
    requires ConfigOk(cfg) && Building(files, node, lines, cfg) && Tracked(files, log, path, node, lines)
    ensures Grown(files, g) && Begun(g) && SavedOk(g, kids, lines, cfg) && CollAt(g, value, tps)
    ensures forall w {:trigger Sub(lines, w)} :: Sub(lines, w) != [] ==> Has(kids, w)
    ensures Logged(g.source, more) && Wrote(log, more, path) && BelowIn(more, path, lines)
    decreases node, 1
  {
    g, value := SaveColl(files, tps);
    InMemoryKept(files, g, node, lines, cfg);
    StillBegun(files, g);
    ghost var before := g;
    g, kids, more := SaveCurrent(g, node, lines, cfg, path, log);
    CollKept(before, g, value, tps);
    StillBegun(before, g);
  }

  method WriteNode(files: Files, kids: seq<Kid>, value: nat, count: real, ghost tps: seq<TargetPhrase>,
                   ghost lines: seq<Line>, cfg: Config)
    returns (g: Files)
    requires ConfigOk(cfg) && files.source != [] && SavedOk(files, kids, lines, cfg) && CollAt(files, value, tps)
    requires IsBest(tps, Targets(lines), cfg.tableLimit, cfg.numScores, cfg.sortScore) && count == LastCount(lines)
    requires forall w {:trigger Sub(lines, w)} :: Sub(lines, w) != [] ==> Has(kids, w)
    ensures Grown(files, g) && Stored(g, |files.source|, lines, cfg)
            && |g.source| == |files.source| + GetNodeSize(|kids|)
    ensures g.source == files.source + EncodeAll(NodeFields(kids, value, count))
  {
    var fs := NodeFields(kids, value, count);
    g := files.(source := files.source + EncodeAll(fs));
    Appended(files.source, fs);
    NodeSizeIs(kids, value, count);
    CollKept(files, g, value, tps);
    KidsKept(files, g, lines, cfg, kids);
    assert Content(g, |files.source|, lines, cfg, kids, value, tps);
  }

  // ---------------------------------------------------------------- adding a line

  /** AddTargetPhrase: a new child of a node makes it save the one before. */
  method AddTargetPhrase(files: Files, node: PhraseNode, line: Line, ghost lines: seq<Line>, cfg: Config,
                         ghost path: seq<Word>, ghost log: seq<Written>)
    returns (g: Files, r: PhraseNode, ghost more: seq<Written>)
    requires ConfigOk(cfg) && Building(files, node, lines, cfg) && Tracked(files, log, path, node, lines)
    requires Continues(lines, line.source) && |line.target.scores| == cfg.numScores
    ensures Grown(files, g) && Building(g, r, lines + [line], cfg)
    ensures Tracked(g, more, path, r, lines + [line]) && Wrote(log, more, path)
    decreases |line.source|, 1
  {
    if line.source == [] {
      g, r, more := files, node.(count := line.count, coll := node.coll + [line.target]), log;
      EndsHere(files, node, line, lines, cfg);
      EndsSoFar(log, path, node, r, line, lines);
    } else if node.curr.Some? && node.curr.value.word == line.source[0] {
      g, r, more := AddToCurrent(files, node, line, lines, cfg, path, log);
    } else {
      g, r, more := AddToNew(files, node, line, lines, cfg, path, log);
    }
  }

  method AddToCurrent(files: Files, node: PhraseNode, line: Line, ghost lines: seq<Line>, cfg: Config,
                      ghost path: seq<Word>, ghost log: seq<Written>)
    returns (g: Files, r: PhraseNode, ghost more: seq<Written>)
    requires ConfigOk(cfg) && Building(files, node, lines, cfg) && Tracked(files, log, path, node, lines)
    requires Continues(lines, line.source) && |line.target.scores| == cfg.numScores
    requires line.source != [] && node.curr.Some? && node.curr.value.word == line.source[0]
    ensures Grown(files, g) && Building(g, r, lines + [line], cfg)
    ensures Tracked(g, more, path, r, lines + [line]) && Wrote(log, more, path)
    decreases |line.source|, 0
  {
    var w, rest := line.source[0], line.(source := line.source[1..]);
    var child;
    CurrentSoFar(log, path, node, lines);
    g, child, more := AddTargetPhrase(files, node.curr.value.node, rest, Sub(lines, w), cfg, path + [w], log);
    r := node.(curr := Some(Open(w, child)));
    KidsKept(files, g, lines, cfg, node.saved);
    GoesOnIn(g, node.saved, child, node, line, lines, cfg);
    AddedSoFar(log, more, path, child, r, line, lines);
    WroteMore(log, more, path, w);
  }

  method AddToNew(files: Files, node: PhraseNode, line: Line, ghost lines: seq<Line>, cfg: Config,
                  ghost path: seq<Word>, ghost log: seq<Written>)
    returns (g: Files, r: PhraseNode, ghost more: seq<Written>)
    requires ConfigOk(cfg) && Building(files, node, lines, cfg) && Tracked(files, log, path, node, lines)
    requires Continues(lines, line.source) && |line.target.scores| == cfg.numScores
    requires line.source != [] && !(node.curr.Some? && node.curr.value.word == line.source[0])
    ensures Grown(files, g) && Building(g, r, lines + [line], cfg)
    ensures Tracked(g, more, path, r, lines + [line]) && Wrote(log, more, path)
    decreases |line.source|, 0
  {
    var w, rest := line.source[0], line.(source := line.source[1..]);
    var kids, child;
    NewIsFresh(node, lines, w);
    ghost var mid;
    g, kids, mid := SaveCurrent(files, node, lines, cfg, path, log);
    StillBegun(files, g);
    NothingAdded(g, cfg);
    NewSoFar(mid, path, w, lines);
    ghost var before := g;
    g, child, more := AddTargetPhrase(g, NewNode, rest, [], cfg, path + [w], mid);
    KidsKept(before, g, lines, cfg, kids);
    r := node.(saved := kids, curr := Some(Open(w, child)));
    GoesOnIn(g, kids, child, node, line, lines, cfg);
    AddedSoFar(mid, more, path, child, r, line, lines);
    WroteMore(mid, more, path, w);
    WroteBoth(log, mid, more, path);
  }

  lemma {:induction false} NothingAdded(files: Files, cfg: Config)
    requires ConfigOk(cfg)
    ensures InMemory(files, NewNode, [], cfg)
  {
  }

  lemma {:induction false} EndsHere(files: Files, node: PhraseNode, line: Line, lines: seq<Line>, cfg: Config)
    requires ConfigOk(cfg) && InMemory(files, node, lines, cfg) && line.source == []
             && |line.target.scores| == cfg.numScores
    ensures InMemory(files, node.(count := line.count, coll := node.coll + [line.target]), lines + [line], cfg)
  {
    SameSubs(lines, line, cfg, files, node.saved);
    if node.curr.Some? {
      SubAppend(lines, line, node.curr.value.word);
    } else {
      SubAppend(lines, line, Word(false, 0));
    }
    forall w
      ensures Sub(lines + [line], w) == Sub(lines, w)
    {
      SubAppend(lines, line, w);
    }
  }

  /** Children for other words than the line's are not affected by it. */
  lemma {:induction false} SameSubs(lines: seq<Line>, line: Line, cfg: Config, files: Files, kids: seq<Kid>)
    requires ConfigOk(cfg) && SavedOk(files, kids, lines, cfg) && (line.source != [] ==> !Has(kids, line.source[0]))
    ensures SavedOk(files, kids, lines + [line], cfg)
  {
    forall i | 0 <= i < |kids|
      ensures Sub(lines + [line], kids[i].word) == Sub(lines, kids[i].word)
    {
      SubAppend(lines, line, kids[i].word);
    }
  }

  lemma {:induction false} NewIsFresh(node: PhraseNode, lines: seq<Line>, w: Word)
    requires Sub(lines, w) == [] || LastFirst(lines) == Some(w)
    requires match node.curr
             case None => LastFirst(lines).None?
             case Some(open) => LastFirst(lines) == Some(open.word) && open.word != w
    ensures Sub(lines, w) == []
  {
  }

  /** The line went into the child for its first word, which now is the current one. */
  lemma {:induction false} GoesOnIn(files: Files, kids: seq<Kid>, child: PhraseNode, node: PhraseNode, line: Line,
                                    lines: seq<Line>, cfg: Config)
    requires ConfigOk(cfg) && line.source != [] && SavedOk(files, kids, lines, cfg) && !Has(kids, line.source[0])
    requires InMemory(files, child, Sub(lines, line.source[0]) + [line.(source := line.source[1..])], cfg)
    requires node.count == LastCount(lines) && node.coll == Targets(lines) && Scored(node.coll, cfg.numScores)
    requires forall w {:trigger Sub(lines, w)} :: Sub(lines, w) != [] ==> Has(kids, w) || w == line.source[0]
    ensures InMemory(files, node.(saved := kids, curr := Some(Open(line.source[0], child))), lines + [line], cfg)
  {
    SameSubs(lines, line, cfg, files, kids);
    SubAppend(lines, line, line.source[0]);
    forall w | Sub(lines + [line], w) != []
      ensures Has(kids, w) || w == line.source[0]
    {
      SubAppend(lines, line, w);
    }
  }

  // ---------------------------------------------------------------- finding nodes again

  /** The child at index `x` of a node. */
  lemma {:induction false} KidRead(source: Bytes, pos: nat, kids: seq<Kid>, x: nat)
    requires Layout(source, pos, KidsFields(kids)) && x < |kids|
    ensures pos + KID_SIZE * x + WORD_SIZE < |source|
    ensures ReadWord(source, pos + KID_SIZE * x) == kids[x].word
            && ReadNum(source, pos + KID_SIZE * x + WORD_SIZE) == kids[x].filePos
    decreases |kids|
  {
    var rest := [Num(kids[0].filePos)] + KidsFields(kids[1..]);
    WordRead(source, pos, kids[0].word, rest);
    ReadsFirst(source, pos + WORD_SIZE, rest);
    assert rest[1..] == KidsFields(kids[1..]);
    if x > 0 {
      KidRead(source, pos + KID_SIZE, kids[1..], x - 1);
    }
  }

  lemma {:induction false} NodeRead(source: Bytes, pos: nat, kids: seq<Kid>, value: nat, count: real)
    requires NodeAt(source, pos, kids, value, count)
    ensures pos + 16 < |source| && ReadNum(source, pos) == |kids| && ReadNum(source, pos + 8) == value
            && ReadFloat(source, pos + 16) == count
    ensures Layout(source, pos + 20, KidsFields(kids))
  {
    var fs := NodeFields(kids, value, count);
    ReadsFirst(source, pos, fs);
    ReadsFirst(source, pos + 8, fs[1..]);
    ReadsFirst(source, pos + 16, fs[1..][1..]);
    assert fs[1..][1..][1..] == KidsFields(kids);
  }

  /** GetChild: binary search among the children of the node. */
  method GetChild(source: Bytes, pos: nat, sought: Word, ghost kids: seq<Kid>, ghost value: nat, ghost count: real)
    returns (found: bool, childPos: nat)
    requires NodeAt(source, pos, kids, value, count) && Ordered(kids)
    ensures found <==> Has(kids, sought)
    ensures found ==> Kid(sought, childPos) in kids
  {
    NodeRead(source, pos, kids, value, count);
    var l, r := 0, ReadNum(source, pos) - 1;
    while r >= l
      invariant 0 <= l <= r + 1 <= |kids|
      invariant forall i {:trigger kids[i]} :: 0 <= i < l ==> Less(kids[i].word, sought)
      invariant forall i {:trigger kids[i]} :: r < i < |kids| ==> Less(sought, kids[i].word)
      decreases r - l
    {
      var x := (l + r) / 2;
      KidRead(source, pos + 20, kids, x);
      var at := pos + 20 + KID_SIZE * x;
      var wordFound := ReadWord(source, at);
      if wordFound == sought {
        return true, ReadNum(source, at + WORD_SIZE);
      }
      if Less(sought, wordFound) {
        r := x - 1;
      } else {
        l := x + 1;
      }
    }
    return false, 0;
  }

  /** Walks down from a node; a phrase leads somewhere exactly if some line goes on behind it. */
  method Walk(files: Files, root: nat, phrase: seq<Word>, ghost lines: seq<Line>, cfg: Config)
    returns (found: bool, pos: nat)
    requires ConfigOk(cfg) && Stored(files, root, lines, cfg)
    ensures found <==> phrase == [] || SubAll(lines, phrase) != []
    ensures found ==> Stored(files, pos, SubAll(lines, phrase), cfg)
  {
    pos := root;
    ghost var here := lines;
    for i := 0 to |phrase|
      invariant Stored(files, pos, here, cfg) && SubAll(here, phrase[i..]) == SubAll(lines, phrase)
      invariant i > 0 ==> here != []
    {
      SubAllStep(here, phrase, i);
      found, pos := Step(files, pos, phrase[i], here, cfg);
      if !found {
        NothingBehind(phrase[i + 1..]);
        return;
      }
      here := Sub(here, phrase[i]);
    }
    assert phrase[|phrase|..] == [];
    found := true;
  }

  lemma {:induction false} SubAllStep(lines: seq<Line>, phrase: seq<Word>, i: nat)
    requires i < |phrase|
    ensures SubAll(lines, phrase[i..]) == SubAll(Sub(lines, phrase[i]), phrase[i + 1..])
  {
    assert phrase[i..][1..] == phrase[i + 1..];
  }

  lemma {:induction false} NothingBehind(phrase: seq<Word>)
    ensures SubAll([], phrase) == []
    decreases |phrase|
  {
    if phrase != [] {
      NothingBehind(phrase[1..]);
    }
  }

  method Step(files: Files, pos: nat, w: Word, ghost lines: seq<Line>, cfg: Config) returns (found: bool, child: nat)
    requires ConfigOk(cfg) && Stored(files, pos, lines, cfg)
    ensures found <==> Sub(lines, w) != []
    ensures found ==> Stored(files, child, Sub(lines, w), cfg)
  {
    ghost var kids: seq<Kid>, value: nat, tps: seq<TargetPhrase> :|
      Content(files, pos, lines, cfg, kids, value, tps) && KidsStored(files, lines, cfg, kids);
    found, child := GetChild(files.source, pos, w, kids, value, LastCount(lines));
  }

  /** The best of these targets, with their scores as they are read. */
  ghost predicate BestRead(targets: seq<TargetPhrase>, all: seq<TargetPhrase>, log: real -> real, cfg: Config)
    requires ConfigOk(cfg)
  {
    exists best :: IsBest(best, all, cfg.tableLimit, cfg.numScores, cfg.sortScore) && targets == TargetsRead(best, log)
  }

  /** The constructor that loads a node, and GetTargetPhraseCollection. */
  method Load(files: Files, pos: nat, log: real -> real, ghost lines: seq<Line>, cfg: Config)
    returns (count: real, targets: seq<TargetPhrase>)
    requires ConfigOk(cfg) && Stored(files, pos, lines, cfg)
    ensures count == LastCount(lines) && BestRead(targets, Targets(lines), log, cfg)
  {
    ghost var kids: seq<Kid>, value: nat, tps: seq<TargetPhrase> :|
      Content(files, pos, lines, cfg, kids, value, tps) && KidsStored(files, lines, cfg, kids);
    NodeRead(files.source, pos, kids, value, LastCount(lines));
    count := ReadFloat(files.source, pos + 16);
    BestScored(tps, Targets(lines), cfg);
    targets := ReadColl(files, ReadNum(files.source, pos + 8), cfg.tableLimit, cfg.numScores, log, tps);
    assert tps[..|tps|] == tps;
  }

  lemma {:induction false} BestScored(tps: seq<TargetPhrase>, all: seq<TargetPhrase>, cfg: Config)
    requires ConfigOk(cfg) && IsBest(tps, all, cfg.tableLimit, cfg.numScores, cfg.sortScore)
    ensures |tps| <= cfg.tableLimit && Scored(tps, cfg.numScores)
  {
    var rest :| Split(tps, rest, all, cfg.numScores, cfg.sortScore) && (rest == [] || |tps| == cfg.tableLimit)
      && |tps| <= cfg.tableLimit;
    assert forall k {:trigger tps[k]} :: 0 <= k < |tps| ==> tps[k] == (tps + rest)[k];
  }

  // ---------------------------------------------------------------- the table as a whole

  /** The targets given for exactly this source, in order. */
  function Given(lines: seq<Line>, phrase: seq<Word>): seq<TargetPhrase> {
    if lines == [] then []
    else
      var last := lines[|lines| - 1];
      Given(lines[..|lines| - 1], phrase) + if last.source == phrase then [last.target] else []
  }

  /** The count given last for exactly this source. */
  function CountGiven(lines: seq<Line>, phrase: seq<Word>): real {
    if lines == [] then DEFAULT_COUNT
    else if lines[|lines| - 1].source == phrase then lines[|lines| - 1].count
    else CountGiven(lines[..|lines| - 1], phrase)
  }

  predicate Leads(lines: seq<Line>, phrase: seq<Word>) {
    exists k {:trigger lines[k]} :: 0 <= k < |lines| && phrase <= lines[k].source
  }

  /** Behind its first word, the rest of a phrase is given what the phrase is given. */
  ghost predicate SameGiven(lines: seq<Line>, phrase: seq<Word>)
    requires phrase != []
  {
    var sub, rest := Sub(lines, phrase[0]), phrase[1..];
    && Given(sub, rest) == Given(lines, phrase) && CountGiven(sub, rest) == CountGiven(lines, phrase)
    && Leads(sub, rest) == Leads(lines, phrase)
  }

  lemma {:induction false} SubGives(lines: seq<Line>, phrase: seq<Word>)
    requires phrase != []
    ensures SameGiven(lines, phrase)
    decreases |lines|
  {
    if lines == [] {
      return;
    }
    var before, last := lines[..|lines| - 1], lines[|lines| - 1];
    SubGives(before, phrase);
    SubGivesLast(before, last, phrase);
    assert lines == before + [last];
  }

  lemma {:induction false} SubGivesLast(before: seq<Line>, last: Line, phrase: seq<Word>)
    requires phrase != [] && SameGiven(before, phrase)
    ensures SameGiven(before + [last], phrase)
  {
    SubAppend(before, last, phrase[0]);
    GivenAppend(before, last, phrase);
    HeadTail(last.source, phrase);
    if last.source != [] && last.source[0] == phrase[0] {
      GivenAppend(Sub(before, phrase[0]), last.(source := last.source[1..]), phrase[1..]);
    }
  }

  lemma {:induction false} HeadTail(a: seq<Word>, b: seq<Word>)
    requires b != []
    ensures a == b <==> a != [] && a[0] == b[0] && a[1..] == b[1..]
    ensures b <= a <==> a != [] && a[0] == b[0] && b[1..] <= a[1..]
  {
    assert b == [b[0]] + b[1..];
    assert a != [] ==> a == [a[0]] + a[1..];
  }

  lemma {:induction false} GivenAppend(lines: seq<Line>, line: Line, phrase: seq<Word>)
    ensures Given(lines + [line], phrase) == if line.source == phrase then Given(lines, phrase) + [line.target]
            else Given(lines, phrase)
    ensures CountGiven(lines + [line], phrase) == if line.source == phrase then line.count
            else CountGiven(lines, phrase)
    ensures Leads(lines + [line], phrase) <==> Leads(lines, phrase) || phrase <= line.source
  {
    assert (lines + [line])[..|lines|] == lines;
    assert (lines + [line])[|lines|] == line;
    assert forall k {:trigger lines[k]} :: 0 <= k < |lines| ==> (lines + [line])[k] == lines[k];
  }

  lemma {:induction false} EmptyGives(lines: seq<Line>)
    ensures Given(lines, []) == Targets(lines) && CountGiven(lines, []) == LastCount(lines)
    ensures Leads(lines, []) <==> lines != []
    decreases |lines|
  {
    if lines != [] {
      EmptyGives(lines[..|lines| - 1]);
      assert [] <= lines[0].source;
    }
  }

  /** What the lines behind a phrase say is what was given for the phrase. */
  lemma {:induction false} SubAllGives(lines: seq<Line>, phrase: seq<Word>)
    ensures Targets(SubAll(lines, phrase)) == Given(lines, phrase)
            && LastCount(SubAll(lines, phrase)) == CountGiven(lines, phrase)
    ensures SubAll(lines, phrase) != [] <==> Leads(lines, phrase)
    decreases |phrase|
  {
    if phrase == [] {
      EmptyGives(lines);
    } else {
      SubGives(lines, phrase);
      SubAllGives(Sub(lines, phrase[0]), phrase[1..]);
    }
  }

  /**
   BeginSave, the additions in order, and the final save of the root.  The file of nodes holds
   exactly one node for each source prefix, and nothing else.
   */
  method BuildTable(lines: seq<Line>, cfg: Config) returns (files: Files, root: nat, ghost log: seq<Written>)
    requires ConfigOk(cfg) && Grouped(lines)
    requires forall k {:trigger lines[k]} :: 0 <= k < |lines| ==> |lines[k].target.scores| == cfg.numScores
    ensures Stored(files, root, lines, cfg)
    ensures Logged(files.source, log)
    ensures forall q {:trigger InAt(log, [], q)} :: InAt(log, [], q) <==> q == [] || Leads(lines, q)
  {
    var first := Encode(Char(255));
    files := Files(first, first, first);
    var node := NewNode;
    log := [];
    NothingAdded(files, cfg);
    NothingWritten();
    ghost var done: seq<Line> := [];
    for i := 0 to |lines|
      invariant Building(files, node, done, cfg) && Tracked(files, log, [], node, done) && done == lines[..i]
    {
      GroupedPrefix(lines, i, done);
      files, node, log := AddTargetPhrase(files, node, lines[i], done, cfg, [], log);
      NextPrefix(lines, i);
      done := done + [lines[i]];
    }
    assert done == lines;
    files, root, log := Save(files, node, done, cfg, [], log);
    forall q {:trigger InAt(log, [], q)}
      ensures InAt(log, [], q) <==> q == [] || Leads(lines, q)
    {
      SubAllGives(lines, q);
    }
  }

  lemma {:induction false} NothingWritten()
    ensures SoFar([], [], NewNode, [])
  {
    forall q {:trigger InAt([], [], q)}
      ensures !Done(NewNode, [], q)
    {
      NothingBehind(q);
    }
  }

  lemma {:induction false} NextPrefix(lines: seq<Line>, i: nat)
    requires i < |lines|
    ensures lines[..i] + [lines[i]] == lines[..i + 1]
  {
  }

  lemma {:induction false} GroupedPrefix(lines: seq<Line>, i: nat, done: seq<Line>)
    requires Grouped(lines) && i < |lines| && done == lines[..i]
    ensures Continues(done, lines[i].source)
    decreases |lines|
  {
    if i < |lines| - 1 {
      var before := lines[..|lines| - 1];
      assert before[..i] == lines[..i];
      GroupedPrefix(before, i, done);
    }
  }

  /**
   The saved table against the lines: a phrase is found exactly if it starts some source, with
   the count given last for it and the best of the targets given for it.
   */
  method Lookup(files: Files, root: nat, phrase: seq<Word>, log: real -> real, ghost lines: seq<Line>, cfg: Config)
    returns (found: bool, count: real, targets: seq<TargetPhrase>)
    requires ConfigOk(cfg) && Stored(files, root, lines, cfg)
    ensures found <==> phrase == [] || Leads(lines, phrase)
    ensures found ==> count == CountGiven(lines, phrase)
    ensures found ==> BestRead(targets, Given(lines, phrase), log, cfg)
  {
    SubAllGives(lines, phrase);
    var pos;
    found, pos := Walk(files, root, phrase, lines, cfg);
    count, targets := DEFAULT_COUNT, [];
    if found {
      count, targets := Load(files, pos, log, SubAll(lines, phrase), cfg);
    }
  }
}
