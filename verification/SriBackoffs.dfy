/**
 SRISucks and BackoffMessages of kenlm/lm/search_trie.cc.  A blank rests on its longest listed
 prefix and owes the backoffs of the histories above that.  It sends each of them a message;
 listed n-grams answer with their backoff and are marked as extending right, and blanks that
 are asked are noted so that they can be marked when they are written.

 A pointer into the vector of values stands for the blank it was made for, so values are a
 map from blanks.
 */
module SriBackoffs {
  import opened Lexicographic
  import opened BlankStream

  /** A backoff, and whether it is marked: the two zeros of blank.hh, or a number. */
  datatype Flagged = Flagged(value: real, ext: bool)

  datatype Message = Message(to: Gram, blank: Gram)

  type Backs = map<Gram, Flagged>
  type Values = map<Gram, real>

  function Extend(f: Flagged): Flagged {
    f.(ext := true)
  }

  /** ReadBackoff leaves only zeros unmarked. */
  predicate FlaggedOk(f: Flagged) {
    !f.ext ==> f.value == 0.0
  }

  // ---------------------------------------------------------------- sorting

  predicate Sorted(ms: seq<Message>) {
    forall i, j {:trigger ms[i], ms[j]} :: 0 <= i < j < |ms| ==> Le(ms[i].to, ms[j].to)
  }

  lemma {:induction false} LeTransitive(a: Gram, b: Gram, c: Gram)
    requires Le(a, b) && Le(b, c)
    ensures Le(a, c)
  {
    if a != b && b != c {
      LessTransitive(a, b, c);
    }
  }

  /** FinishedAdding: the messages in the order of the files. */
  method SortMessages(sent: seq<Message>) returns (ms: seq<Message>)
    ensures Sorted(ms) && multiset(ms) == multiset(sent)
  {
    ms := [];
    for n := 0 to |sent|
      invariant Sorted(ms) && multiset(ms) == multiset(sent[..n])
    {
      assert sent[..n + 1] == sent[..n] + [sent[n]];
      ms := InsertMessage(ms, sent[n]);
    }
    assert sent[..|sent|] == sent;
  }

  method InsertMessage(ms: seq<Message>, m: Message) returns (r: seq<Message>)
    requires Sorted(ms)
    ensures Sorted(r) && multiset(r) == multiset(ms) + multiset{m}
  {
    var k := PlaceFor(ms, m);
    r := ms[..k] + [m] + ms[k..];
    PutInOrder(ms, m, k);
    PutInCounts(ms, m, k);
  }

  lemma {:induction false} PutInCounts(ms: seq<Message>, m: Message, k: nat)
    requires k <= |ms|
    ensures multiset(ms[..k] + [m] + ms[k..]) == multiset(ms) + multiset{m}
  {
    assert ms == ms[..k] + ms[k..];
  }

  method PlaceFor(ms: seq<Message>, m: Message) returns (k: nat)
    requires Sorted(ms)
    ensures k <= |ms| && (k > 0 ==> Le(ms[k - 1].to, m.to))
    ensures forall j {:trigger ms[j]} :: k <= j < |ms| ==> Le(m.to, ms[j].to)
  {
    k := |ms|;
    while k > 0 && Less(m.to, ms[k - 1].to)
      invariant 0 <= k <= |ms|
      invariant forall j {:trigger ms[j]} :: k <= j < |ms| ==> Le(m.to, ms[j].to)
    {
      k := k - 1;
    }
    if k > 0 {
      LessTotal(ms[k - 1].to, m.to);
    }
  }

  lemma {:induction false} PutInOrder(ms: seq<Message>, m: Message, k: nat)
    requires Sorted(ms) && k <= |ms| && (k > 0 ==> Le(ms[k - 1].to, m.to))
    requires forall j {:trigger ms[j]} :: k <= j < |ms| ==> Le(m.to, ms[j].to)
    ensures Sorted(ms[..k] + [m] + ms[k..])
  {
    var r := ms[..k] + [m] + ms[k..];
    forall i, j | 0 <= i < j < |r|
      ensures Le(r[i].to, r[j].to)
    {
      if i < k {
        assert r[i] == ms[i];
        if i < k - 1 {
          LeTransitive(ms[i].to, ms[k - 1].to, m.to);
        }
      }
      if j > k {
        assert r[j] == ms[j - 1];
      }
    }
  }

  // ---------------------------------------------------------------- one order of messages

  /** What a message fetches: the backoff of a listed n-gram, nothing from a blank. */
  function Gives(backs: Backs, to: Gram): real {
    if to in backs then backs[to].value else 0.0
  }

  ghost predicate Asked(ms: seq<Message>, g: Gram) {
    exists m :: m in ms && m.to == g
  }

  ghost predicate FromBlank(ms: seq<Message>, b: Gram) {
    exists m :: m in ms && m.blank == b
  }

  /** One message for each blank. */
  ghost predicate OneEach(ms: seq<Message>) {
    && (forall m {:trigger multiset(ms)[m]} :: multiset(ms)[m] <= 1)
    && forall m, m' {:trigger m in ms, m' in ms} :: m in ms && m' in ms && m.blank == m'.blank ==> m == m'
  }

  /** What delivering these messages does to values and marks. */
  ghost predicate Delivered(ms: seq<Message>, backs: Backs, values: Values, backs': Backs, values': Values) {
    Marked(ms, backs, backs') && Fetched(ms, backs, values, values')
  }

  ghost predicate Marked(ms: seq<Message>, backs: Backs, backs': Backs) {
    && backs'.Keys == backs.Keys
    && forall g {:trigger g in backs'} :: g in backs ==>
         backs'[g] == if Asked(ms, g) then Extend(backs[g]) else backs[g]
  }

  ghost predicate Fetched(ms: seq<Message>, backs: Backs, values: Values, values': Values) {
    && values'.Keys == values.Keys
    && (forall m {:trigger m in ms} :: m in ms ==>
         m.blank in values && values'[m.blank] == values[m.blank] + Gives(backs, m.to))
    && forall b {:trigger b in values'} :: b in values && !FromBlank(ms, b) ==> values'[b] == values[b]
  }

  ghost predicate NeverBack(list: seq<Gram>) {
    forall i, j {:trigger list[i], list[j]} :: 0 <= i < j < |list| ==> Le(list[i], list[j])
  }

  /** Blanks that are asked are noted, unless they come after the last listed n-gram of their length. */
  ghost predicate Noted(ms: seq<Message>, file: seq<Gram>, noted: seq<Gram>) {
    && NeverBack(noted)
    && forall c {:trigger c in noted} :: c in noted <==> c !in file && Asked(ms, c) && BeforeSome(file, c)
  }

  ghost predicate BeforeSome(file: seq<Gram>, c: Gram) {
    exists r {:trigger Less(c, r)} :: r in file && Less(c, r)
  }

  ghost predicate FileOk(file: seq<Gram>) {
    forall i, j {:trigger file[i], file[j]} :: 0 <= i < j < |file| ==> Less(file[i], file[j])
  }

  lemma {:induction false} SplitAt(ms: seq<Message>, k: nat)
    requires k < |ms|
    ensures ms[..k + 1] == ms[..k] + [ms[k]]
    ensures forall m {:trigger m in ms[..k + 1]} :: m in ms[..k + 1] <==> m in ms[..k] || m == ms[k]
    ensures OneEach(ms) ==> !FromBlank(ms[..k], ms[k].blank)
  {
    forall m | m in ms[..k]
      ensures OneEach(ms) ==> m.blank != ms[k].blank
    {
      CountedApart(ms, k, m);
      assert m in ms && ms[k] in ms;
    }
  }

  lemma {:induction false} CountedApart(ms: seq<Message>, k: nat, m: Message)
    requires k < |ms| && m in ms[..k]
    ensures m == ms[k] ==> multiset(ms)[m] >= 2
  {
    assert ms == ms[..k] + [ms[k]] + ms[k + 1..];
  }

  /** What a message does to the one it is sent to, and to its sender. */
  function Answered(m: Message, backs: Backs): Backs {
    if m.to in backs then backs[m.to := Extend(backs[m.to])] else backs
  }

  function Credited(m: Message, backs: Backs, values: Values): Values
    requires m.blank in values
  {
    values[m.blank := values[m.blank] + Gives(backs, m.to)]
  }

  /** One message more is delivered: the values and marks of the others are as before. */
  lemma {:induction false} OneDelivered(ms: seq<Message>, k: nat, backs0: Backs, values0: Values, backs: Backs,
                                        values: Values)
    requires k < |ms| && OneEach(ms) && ms[k].blank in values0 && Delivered(ms[..k], backs0, values0, backs, values)
    requires forall g {:trigger g in backs0} :: g in backs0 ==> FlaggedOk(backs0[g])
    ensures var m := ms[k];
            && m.blank in values && values[m.blank] == values0[m.blank]
            && Delivered(ms[..k + 1], backs0, values0, Answered(m, backs), Credited(m, backs, values))
    ensures Gives(backs, ms[k].to) == Gives(backs0, ms[k].to)
    ensures ms[k].to in backs && !backs[ms[k].to].ext ==> Gives(backs, ms[k].to) == 0.0
  {
    SplitAt(ms, k);
    MarksMore(ms[..k], ms[..k + 1], ms[k], backs0, backs);
    FetchedMore(ms[..k], ms[..k + 1], ms[k], backs0, values0, backs, values);
  }

  lemma {:induction false} MarksMore(less: seq<Message>, more: seq<Message>, m: Message, backs0: Backs, backs: Backs)
    requires Marked(less, backs0, backs) && forall x {:trigger x in more} :: x in more <==> x in less || x == m
    ensures Marked(more, backs0, Answered(m, backs)) && Gives(backs, m.to) == Gives(backs0, m.to)
  {
    forall g
      ensures Asked(more, g) <==> Asked(less, g) || g == m.to
    {
    }
    assert m.to in backs <==> m.to in backs0;
  }

  lemma {:induction false} FetchedMore(less: seq<Message>, more: seq<Message>, m: Message, backs0: Backs,
                                       values0: Values, backs: Backs, values: Values)
    requires Fetched(less, backs0, values0, values) && m.blank in values0 && !FromBlank(less, m.blank)
    requires forall x {:trigger x in more} :: x in more <==> x in less || x == m
    requires Gives(backs, m.to) == Gives(backs0, m.to)
    ensures m.blank in values && values[m.blank] == values0[m.blank]
    ensures Fetched(more, backs0, values0, Credited(m, backs, values))
  {
    assert m.blank in values;
    forall x {:trigger x in less} | x in less
      ensures x.blank != m.blank && x in more
    {
    }
    assert m in more;
  }

  /** A listed n-gram answers; the zero that is not marked has nothing to give. */
  method Deliver(m: Message, backs0: Backs, values0: Values) returns (backs: Backs, values: Values)
    requires m.to in backs0 && m.blank in values0 && FlaggedOk(backs0[m.to])
    ensures backs == Answered(m, backs0) && values == Credited(m, backs0, values0)
  {
    backs, values := backs0, values0;
    if !backs[m.to].ext {
      backs := backs[m.to := Extend(backs[m.to])];
      assert values[m.blank := values[m.blank]] == values;
    } else {
      values := values[m.blank := values[m.blank] + backs[m.to].value];
      assert backs[m.to := backs[m.to]] == backs;
    }
  }

  /** The merge of sorted messages with the records of their order. */
  method Apply(sent: seq<Message>, file: seq<Gram>, backs0: Backs, values0: Values)
    returns (backs: Backs, values: Values, noted: seq<Gram>)
    requires OneEach(sent) && FileOk(file) && forall m {:trigger m in sent} :: m in sent ==> m.blank in values0
    requires (forall g {:trigger g in backs0} :: g in backs0 <==> g in file)
    requires forall g {:trigger g in backs0} :: g in backs0 ==> FlaggedOk(backs0[g])
    ensures Delivered(sent, backs0, values0, backs, values) && Noted(sent, file, noted)
  {
    var ms := SortMessages(sent);
    SameMessages(sent, ms);
    var k;
    ghost var r;
    backs, values, noted, r, k := MergeMessages(ms, file, backs0, values0);
    RestUndelivered(ms, k, file, r, backs0, values0, backs, values, noted);
    DeliveredSame(sent, ms, file, backs0, values0, backs, values, noted);
  }

  /** Both are read in step until one comes to its end. */
  method MergeMessages(ms: seq<Message>, file: seq<Gram>, backs0: Backs, values0: Values)
    returns (backs: Backs, values: Values, noted: seq<Gram>, ghost r: nat, k: nat)
    requires Sorted(ms) && OneEach(ms) && FileOk(file) && forall m {:trigger m in ms} :: m in ms ==> m.blank in values0
    requires forall g {:trigger g in backs0} :: g in backs0 <==> g in file
    requires forall g {:trigger g in backs0} :: g in backs0 ==> FlaggedOk(backs0[g])
    ensures r <= |file| && k <= |ms| && (r == |file| || k == |ms|)
    ensures Delivered(ms[..k], backs0, values0, backs, values) && NotedSoFar(ms, k, file, noted)
            && Behind(ms, k, file, r)
  {
    backs, values, noted, k := backs0, values0, [], 0;
    var at := 0;
    while at < |file| && k < |ms|
      invariant at <= |file| && k <= |ms| && Delivered(ms[..k], backs0, values0, backs, values)
      invariant NotedSoFar(ms, k, file, noted) && Behind(ms, k, file, at)
      decreases |file| - at + |ms| - k
    {
      LessTotal(file[at], ms[k].to);
      if Less(file[at], ms[k].to) {
        at := at + 1;
      } else {
        assert ms[k] in ms;
        backs, values, noted := Answer(ms, k, file, at, backs0, values0, backs, values, noted);
        k := k + 1;
      }
    }
    r := at;
  }

  /** The next message is not beyond the record: it is its own, or nobody is listed to receive it. */
  method Answer(ms: seq<Message>, k: nat, file: seq<Gram>, r: nat, ghost backs0: Backs, ghost values0: Values,
                backs: Backs, values: Values, noted: seq<Gram>)
    returns (backs': Backs, values': Values, noted': seq<Gram>)
    requires Sorted(ms) && OneEach(ms) && FileOk(file) && k < |ms| && r < |file| && Le(ms[k].to, file[r])
    requires ms[k].blank in values0 && Delivered(ms[..k], backs0, values0, backs, values)
    requires forall g {:trigger g in backs0} :: g in backs0 <==> g in file
    requires forall g {:trigger g in backs0} :: g in backs0 ==> FlaggedOk(backs0[g])
    requires NotedSoFar(ms, k, file, noted) && Behind(ms, k, file, r)
    ensures Delivered(ms[..k + 1], backs0, values0, backs', values')
    ensures NotedSoFar(ms, k + 1, file, noted') && Behind(ms, k + 1, file, r)
  {
    OneDelivered(ms, k, backs0, values0, backs, values);
    OneNoted(ms, k, file, r, noted);
    backs', values', noted' := backs, values, noted;
    if file[r] == ms[k].to {
      backs', values' := Deliver(ms[k], backs, values);
    } else {
      noted' := noted + [ms[k].to];
      assert Credited(ms[k], backs, values) == values;
    }
  }

  /** The messages handled so far to blanks are noted, in order. */
  ghost predicate NotedSoFar(ms: seq<Message>, k: nat, file: seq<Gram>, noted: seq<Gram>)
    requires k <= |ms|
  {
    && Noted(ms[..k], file, noted)
    && forall i {:trigger noted[i]} :: 0 <= i < |noted| && k < |ms| ==> Le(noted[i], ms[k].to)
  }

  /** The records passed come before the next message. */
  ghost predicate Behind(ms: seq<Message>, k: nat, file: seq<Gram>, r: nat)
    requires k <= |ms| && r <= |file|
  {
    forall x {:trigger file[x]} :: 0 <= x < r && k < |ms| ==> Less(file[x], ms[k].to)
  }

  lemma {:induction false} SameMessages(sent: seq<Message>, ms: seq<Message>)
    requires multiset(sent) == multiset(ms)
    ensures forall m {:trigger m in ms} {:trigger m in sent} :: m in ms <==> m in sent
    ensures OneEach(sent) ==> OneEach(ms)
  {
    forall m {:trigger m in ms} {:trigger m in sent}
      ensures m in ms <==> m in sent
    {
      assert m in ms <==> m in multiset(ms);
      assert m in sent <==> m in multiset(sent);
    }
  }

  lemma {:induction false} DeliveredSame(sent: seq<Message>, ms: seq<Message>, file: seq<Gram>, backs0: Backs,
                                         values0: Values, backs: Backs, values: Values, noted: seq<Gram>)
    requires forall m {:trigger m in ms} {:trigger m in sent} :: m in ms <==> m in sent
    requires Delivered(ms, backs0, values0, backs, values) && Noted(ms, file, noted)
    ensures Delivered(sent, backs0, values0, backs, values) && Noted(sent, file, noted)
  {
    forall g
      ensures Asked(ms, g) <==> Asked(sent, g)
      ensures FromBlank(ms, g) <==> FromBlank(sent, g)
    {
    }
  }

  lemma {:induction false} OneNoted(ms: seq<Message>, k: nat, file: seq<Gram>, r: nat, noted: seq<Gram>)
    requires Sorted(ms) && FileOk(file) && k < |ms| && r < |file|
    requires NotedSoFar(ms, k, file, noted) && Behind(ms, k, file, r) && Le(ms[k].to, file[r])
    ensures Behind(ms, k + 1, file, r)
    ensures file[r] == ms[k].to ==> NotedSoFar(ms, k + 1, file, noted)
    ensures file[r] != ms[k].to ==> ms[k].to !in file && NotedSoFar(ms, k + 1, file, noted + [ms[k].to])
  {
    var c, more := ms[k].to, noted + [ms[k].to];
    SplitAt(ms, k);
    forall g
      ensures Asked(ms[..k + 1], g) <==> Asked(ms[..k], g) || g == c
    {
    }
    if k + 1 < |ms| {
      forall x | 0 <= x < r
        ensures Less(file[x], ms[k + 1].to)
      {
        LeTransitive(file[x], c, ms[k + 1].to);
        StrictBefore(file[x], c, ms[k + 1].to);
      }
      forall i | 0 <= i < |noted|
        ensures Le(noted[i], ms[k + 1].to)
      {
        LeTransitive(noted[i], c, ms[k + 1].to);
      }
    }
    if file[r] != c {
      NotListed(file, r, c);
      assert BeforeSome(file, c);
      assert forall g {:trigger g in more} :: g in more <==> g in noted || g == c;
    }
  }

  lemma {:induction false} StrictBefore(a: Gram, b: Gram, c: Gram)
    requires Less(a, b) && Le(b, c)
    ensures Less(a, c)
  {
    if b != c {
      LessTransitive(a, b, c);
    }
  }

  /** What lies strictly between two neighbours is not in the file. */
  lemma {:induction false} NotListed(file: seq<Gram>, r: nat, c: Gram)
    requires FileOk(file) && r <= |file| && (r < |file| ==> Less(c, file[r]))
    requires forall x {:trigger file[x]} :: 0 <= x < r ==> Less(file[x], c)
    ensures c !in file
  {
    LessIrreflexive(c);
    forall x | 0 <= x < |file|
      ensures file[x] != c
    {
      if x > r {
        LessTransitive(c, file[r], file[x]);
      }
    }
  }

  /** Messages left over come after all records: no one gives them anything, and no blank is noted. */
  lemma {:induction false} RestUndelivered(ms: seq<Message>, k: nat, file: seq<Gram>, r: nat, backs0: Backs,
                                           values0: Values, backs: Backs, values: Values, noted: seq<Gram>)
    requires Sorted(ms) && FileOk(file) && k <= |ms| && r <= |file| && OneEach(ms)
    requires forall m {:trigger m in ms} :: m in ms ==> m.blank in values0
    requires forall g {:trigger g in backs0} :: g in backs0 <==> g in file
    requires Delivered(ms[..k], backs0, values0, backs, values)
    requires NotedSoFar(ms, k, file, noted) && Behind(ms, k, file, r) && (r == |file| || k == |ms|)
    ensures Delivered(ms, backs0, values0, backs, values) && Noted(ms, file, noted)
  {
    assert ms[..|ms|] == ms;
    if k < |ms| {
      forall m | m in ms
        ensures m in ms[..k] || Unheard(ms[..k], file, m)
      {
        LeftOver(ms, k, file, m);
      }
      NobodyHeard(ms, ms[..k], file, backs0, values0, backs, values, noted);
    }
  }

  /** The message comes after every record, and its blank has sent no other. */
  ghost predicate Unheard(less: seq<Message>, file: seq<Gram>, m: Message) {
    m.to !in file && !BeforeSome(file, m.to) && !FromBlank(less, m.blank)
  }

  lemma {:induction false} LeftOver(ms: seq<Message>, k: nat, file: seq<Gram>, m: Message)
    requires Sorted(ms) && FileOk(file) && k < |ms| && Behind(ms, k, file, |file|) && OneEach(ms) && m in ms
    ensures m in ms[..k] || Unheard(ms[..k], file, m)
  {
    var j :| 0 <= j < |ms| && ms[j] == m;
    if j < k {
      assert ms[..k][j] == m;
    } else {
      AllBehind(ms, k, file, j);
      SplitAt(ms, j);
      assert forall x {:trigger x in ms[..k]} :: x in ms[..k] ==> x in ms[..j] by {
        assert ms[..j][..k] == ms[..k];
      }
    }
  }

  lemma {:induction false} NobodyHeard(ms: seq<Message>, less: seq<Message>, file: seq<Gram>, backs0: Backs,
                                       values0: Values, backs: Backs, values: Values, noted: seq<Gram>)
    requires forall m {:trigger m in less} :: m in less ==> m in ms
    requires forall m {:trigger m in ms} :: m in ms ==> m.blank in values0 && (m in less || Unheard(less, file, m))
    requires forall g {:trigger g in backs0} :: g in backs0 <==> g in file
    requires Delivered(less, backs0, values0, backs, values) && Noted(less, file, noted)
    ensures Delivered(ms, backs0, values0, backs, values) && Noted(ms, file, noted)
  {
    forall g
      ensures g in file || BeforeSome(file, g) ==> (Asked(ms, g) <==> Asked(less, g))
    {
    }
    forall b
      ensures FromBlank(less, b) ==> FromBlank(ms, b)
    {
    }
    forall m {:trigger m in ms} | m in ms
      ensures values[m.blank] == values0[m.blank] + Gives(backs0, m.to)
    {
      assert m !in less ==> m.to !in backs0;
    }
  }

  lemma {:induction false} AllBehind(ms: seq<Message>, k: nat, file: seq<Gram>, j: nat)
    requires Sorted(ms) && FileOk(file) && k <= j < |ms| && Behind(ms, k, file, |file|)
    ensures ms[j].to !in file && !BeforeSome(file, ms[j].to)
  {
    forall x | 0 <= x < |file|
      ensures Less(file[x], ms[j].to)
    {
      if j > k {
        StrictBefore(file[x], ms[k].to, ms[j].to);
      }
    }
    NotListed(file, |file|, ms[j].to);
    forall r | r in file
      ensures !Less(ms[j].to, r)
    {
      LessAsymmetric(r, ms[j].to);
    }
  }

  /** A unigram gives its backoff in any case. */
  method DeliverToUnigram(m: Message, backs0: Backs, values0: Values) returns (backs: Backs, values: Values)
    requires m.to in backs0 && m.blank in values0
    ensures backs == Answered(m, backs0) && values == Credited(m, backs0, values0)
  {
    backs := backs0;
    if !backs[m.to].ext {
      backs := backs[m.to := Extend(backs[m.to])];
    } else {
      assert backs[m.to := Extend(backs[m.to])] == backs;
    }
    values := values0[m.blank := values0[m.blank] + backs[m.to].value];
  }

  /** The same for unigrams, all of which are listed. */
  method ApplyUnigrams(sent: seq<Message>, backs0: Backs, values0: Values) returns (backs: Backs, values: Values)
    requires OneEach(sent)
    requires forall m {:trigger m in sent} :: m in sent ==> m.blank in values0 && m.to in backs0
    requires forall g {:trigger g in backs0} :: g in backs0 ==> FlaggedOk(backs0[g])
    ensures Delivered(sent, backs0, values0, backs, values)
  {
    var ms := SortMessages(sent);
    SameMessages(sent, ms);
    backs, values := backs0, values0;
    for k := 0 to |ms|
      invariant Delivered(ms[..k], backs0, values0, backs, values)
    {
      var m := ms[k];
      assert m in ms;
      OneDelivered(ms, k, backs0, values0, backs, values);
      backs, values := DeliverToUnigram(m, backs, values);
    }
    assert ms[..|ms|] == ms;
    DeliveredSame(sent, ms, [], backs0, values0, backs, values, []);
  }

  // ---------------------------------------------------------------- all messages of a stream

  /** What the blanks among the first `n` n-grams send to histories of `i` words. */
  function Messages(events: seq<Event>, n: nat, i: nat): (ms: seq<Message>)
    requires n <= |events|
  {
    if n == 0 then []
    else Messages(events, n - 1, i) + if Sends(events[n - 1], i) then [MessageOf(events[n - 1], i)] else []
  }

  /** A blank asks for the backoffs of its history from the length of its basis on. */
  predicate Sends(e: Event, i: nat) {
    e.Blank? && e.basedOn <= i < |e.gram|
  }

  function MessageOf(e: Event, i: nat): Message
    requires Sends(e, i)
  {
    Message(e.gram[1..i + 1], e.gram)
  }

  lemma {:induction false} MessagesAre(events: seq<Event>, n: nat, i: nat, m: Message)
    requires n <= |events|
    ensures m in Messages(events, n, i) <==>
              exists x {:trigger events[x]} :: 0 <= x < n && Sends(events[x], i) && m == MessageOf(events[x], i)
  {
    if n > 0 {
      MessagesAre(events, n - 1, i, m);
    }
  }

  lemma {:induction false} MessagesOneEach(events: seq<Event>, n: nat, i: nat)
    requires n <= |events| && Ascending(events)
    ensures OneEach(Messages(events, n, i))
  {
    if n > 0 {
      var less, e := Messages(events, n - 1, i), events[n - 1];
      MessagesOneEach(events, n - 1, i);
      if Sends(e, i) {
        forall m {:trigger m in less} | m in less
          ensures m.blank != e.gram
        {
          SentBefore(events, n - 1, i, m);
        }
        OneMoreMessage(less, MessageOf(e, i));
      } else {
        assert less + [] == less;
      }
    }
  }

  lemma {:induction false} SentBefore(events: seq<Event>, n: nat, i: nat, m: Message)
    requires n < |events| && Ascending(events) && m in Messages(events, n, i)
    ensures m.blank != events[n].gram
  {
    MessagesAre(events, n, i, m);
    var x :| 0 <= x < n && Sends(events[x], i) && m == MessageOf(events[x], i);
    assert Less(events[x].gram, events[n].gram);
    LessIrreflexive(events[n].gram);
  }

  lemma {:induction false} OneMoreMessage(ms: seq<Message>, m: Message)
    requires OneEach(ms) && forall x {:trigger x in ms} :: x in ms ==> x.blank != m.blank
    ensures OneEach(ms + [m])
  {
    assert m !in ms;
    assert multiset(ms + [m]) == multiset(ms) + multiset{m};
    assert multiset(ms)[m] == 0;
  }

  /** The bases of the blanks. */
  function Bases(events: seq<Event>, n: nat): (values: Values)
    requires n <= |events|
  {
    if n == 0 then map[]
    else
      var values := Bases(events, n - 1);
      if events[n - 1].Blank? then values[events[n - 1].gram := events[n - 1].basis] else values
  }

  lemma {:induction false} BasesAre(events: seq<Event>, n: nat)
    requires n <= |events| && Ascending(events)
    ensures forall g {:trigger g in Bases(events, n)} :: g in Bases(events, n) <==>
              exists x {:trigger events[x]} :: 0 <= x < n && events[x].Blank? && events[x].gram == g
    ensures forall x {:trigger events[x]} :: 0 <= x < n && events[x].Blank? ==>
              events[x].gram in Bases(events, n) && Bases(events, n)[events[x].gram] == events[x].basis
  {
    if n > 0 {
      BasesAre(events, n - 1);
      LessIrreflexive(events[n - 1].gram);
      forall x | 0 <= x < n - 1
        ensures events[x].gram != events[n - 1].gram
      {
        assert Less(events[x].gram, events[n - 1].gram);
      }
    }
  }

  /** The backoffs of the histories of `lo` to `hi` - 1 words that `g` fetches. */
  function Owed(levels: seq<Backs>, g: Gram, lo: nat, hi: nat): real
    requires 1 <= lo <= hi <= |g| && hi <= |levels| + 1
    decreases hi
  {
    if lo == hi then 0.0 else Owed(levels, g, lo, hi - 1) + Gives(levels[hi - 2], g[1..hi])
  }

  // ---------------------------------------------------------------- SRISucks

  /** The stream as FindBlanks meets it: every blank rests on a listed prefix. */
  ghost predicate StreamOk(events: seq<Event>, order: nat) {
    && Ascending(events)
    && forall x {:trigger events[x]} :: 0 <= x < |events| && events[x].Blank? ==>
         1 <= events[x].basedOn < |events[x].gram| < order
  }

  /** The backoffs of the listed n-grams by length, as the files hold them. */
  ghost predicate AllBacksOk(levels: seq<Backs>, files: seq<seq<Gram>>) {
    && |levels| == |files|
    && forall o {:trigger levels[o]} :: 0 <= o < |levels| ==> BacksOk(levels[o], files[o], o + 1)
  }

  ghost predicate BacksOk(level: Backs, file: seq<Gram>, length: nat) {
    && FileOk(file)
    && (forall g {:trigger g in level} :: g in level <==> g in file)
    && (forall g {:trigger g in level} :: g in level ==> FlaggedOk(level[g]) && |g| == length)
  }

  /** The value of a blank once the messages to histories of fewer than `n` words are delivered. */
  function Paid(levels: seq<Backs>, e: Event, n: nat): real
    requires e.Blank? && 1 <= e.basedOn < |e.gram| <= |levels| + 1
  {
    e.basis + Owed(levels, e.gram, e.basedOn,
                   if n <= e.basedOn then e.basedOn else if n <= |e.gram| then n else |e.gram|)
  }

  ghost predicate PaidUpTo(events: seq<Event>, levels: seq<Backs>, values: Values, n: nat)
    requires StreamOk(events, |levels| + 1)
  {
    && values.Keys == Bases(events, |events|).Keys
    && forall x {:trigger events[x]} :: 0 <= x < |events| && events[x].Blank? ==>
         events[x].gram in values && values[events[x].gram] == Paid(levels, events[x], n)
  }

  /** Delivering the messages of one length pays one more backoff to each blank that asked. */
  lemma {:induction false} OneLevelPaid(events: seq<Event>, levels: seq<Backs>, i: nat, backs: Backs, values: Values,
                                        values': Values)
    requires StreamOk(events, |levels| + 1) && 1 <= i <= |levels| && PaidUpTo(events, levels, values, i)
    requires Delivered(Messages(events, |events|, i), levels[i - 1], values, backs, values')
    ensures PaidUpTo(events, levels, values', i + 1)
  {
    forall x | 0 <= x < |events| && events[x].Blank?
      ensures events[x].gram in values' && values'[events[x].gram] == Paid(levels, events[x], i + 1)
    {
      OneBlankPaid(events, levels, i, backs, values, values', x);
    }
  }

  lemma {:induction false} OneBlankPaid(events: seq<Event>, levels: seq<Backs>, i: nat, backs: Backs, values: Values,
                                        values': Values, x: nat)
    requires StreamOk(events, |levels| + 1) && 1 <= i <= |levels| && x < |events| && events[x].Blank?
    requires events[x].gram in values && values[events[x].gram] == Paid(levels, events[x], i)
    requires Delivered(Messages(events, |events|, i), levels[i - 1], values, backs, values')
    ensures events[x].gram in values' && values'[events[x].gram] == Paid(levels, events[x], i + 1)
  {
    var e, ms := events[x], Messages(events, |events|, i);
    if Sends(e, i) {
      MessagesAre(events, |events|, i, MessageOf(e, i));
      assert MessageOf(e, i) in ms;
    } else {
      forall m | m in ms
        ensures m.blank != e.gram
      {
        MessagesAre(events, |events|, i, m);
        var y :| 0 <= y < |events| && Sends(events[y], i) && m == MessageOf(events[y], i);
        OneEvent(events, x, y);
      }
    }
  }

  lemma {:induction false} OneEvent(events: seq<Event>, x: nat, y: nat)
    requires Ascending(events) && x < |events| && y < |events| && x != y
    ensures events[x].gram != events[y].gram
  {
    assert x < y ==> Less(events[x].gram, events[y].gram);
    assert y < x ==> Less(events[y].gram, events[x].gram);
    LessIrreflexive(events[x].gram);
  }

  class SriSucks {
    const order: nat
    var values: Values

    /** For each length of history from one on, the messages to it, and then the blanks that are asked. */
    var messages: seq<seq<Message>>
    var noted: seq<seq<Gram>>
    var at: seq<nat>

    constructor (order: nat)
      requires order >= 2
      ensures this.order == order && values == map[] && messages == seq(order - 1, _ => [])
      ensures forall events {:trigger Sent(events, 0)} :: Sent(events, 0)
    {
      this.order, values := order, map[];
      messages, noted, at := seq(order - 1, _ => []), seq(order - 1, _ => []), seq(order - 1, _ => 0);
    }

    /** What has been sent by the first `n` n-grams of a stream. */
    ghost predicate Sent(events: seq<Event>, n: nat)
      requires n <= |events|
      reads this
    {
      && |messages| == order - 1 && values == Bases(events, n)
      && forall i {:trigger messages[i]} :: 0 <= i < |messages| ==> messages[i] == Messages(events, n, i + 1)
    }

    /** Send: the blank `to` of this order asks the histories from `begin` words on. */
    method Send(begin: nat, to: Gram, probBasis: real, ghost events: seq<Event>, ghost n: nat)
      requires n < |events| && events[n] == Blank(to, begin, probBasis) && Sent(events, n) && 1 <= begin < |to| < order
      modifies this`values, this`messages
      ensures Sent(events, n + 1)
    {
      for i := begin to |to|
        invariant |messages| == order - 1 && values == Bases(events, n)
        invariant forall j {:trigger messages[j]} :: 0 <= j < |messages| ==>
                    messages[j] == Messages(events, if begin <= j + 1 < i then n + 1 else n, j + 1)
      {
        messages := messages[i - 1 := messages[i - 1] + [Message(to[1..i + 1], to)]];
      }
      forall i: nat | !(begin <= i < |to|)
        ensures Messages(events, n + 1, i) == Messages(events, n, i)
      {
        assert !Sends(events[n], i);
      }
      values := values[to := probBasis];
    }

    /** All blanks of a stream send their messages. */
    method SendAll(events: seq<Event>)
      requires StreamOk(events, order) && Sent(events, 0)
      modifies this`values, this`messages
      ensures Sent(events, |events|)
    {
      for n := 0 to |events|
        invariant Sent(events, n)
      {
        match events[n]
        case Blank(g, basedOn, basis) =>
          Send(basedOn, g, basis, events, n);
        case Listed(_) =>
          assert forall i: nat :: Messages(events, n + 1, i) == Messages(events, n, i);
      }
    }

    /** ObtainBackoffs: all messages are delivered, and the asked blanks are ready to be marked. */
    method ObtainBackoffs(levels0: seq<Backs>, files: seq<seq<Gram>>, ghost events: seq<Event>)
      returns (levels: seq<Backs>)
      requires Sent(events, |events|) && StreamOk(events, order) && order >= 2
      requires AllBacksOk(levels0, files) && |files| == order - 1
      requires forall m {:trigger m in Messages(events, |events|, 1)} :: m in Messages(events, |events|, 1) ==>
                 m.to in levels0[0]
      modifies this`values, this`noted, this`at
      ensures UpTo(events, levels0, files, levels, values, noted, order) && at == seq(order - 1, _ => 0)
    {
      levels, values, noted := DeliverAll(messages, levels0, files, values, events);
      at := seq(order - 1, _ => 0);
    }

    /** What has been passed over comes before `g`. */
    ghost predicate Past(g: Gram)
      reads this
    {
      && |at| == |noted| == order - 1
      && forall o {:trigger noted[o]} :: 0 <= o < |noted| ==>
           at[o] <= |noted[o]| && forall x {:trigger noted[o][x]} :: 0 <= x < at[o] ==> Less(noted[o][x], g)
    }

    /** GetBlank: the value of the next blank, and whether it is marked. */
    method GetBlank(g: Gram) returns (prob: real, ext: bool)
      requires g in values && 1 < |g| < order && Past(g) && NeverBack(noted[|g| - 1]) && noted[order - 2] == []
      modifies this`at
      ensures Past(g) && prob == values[g] && (ext <==> g in noted[|g| - 1])
    {
      prob, ext := values[g], false;
      if |g| != order - 1 {
        ext := Extends(g);
      }
    }

    /** Extends: the blanks come in the order in which they are noted. */
    method Extends(g: Gram) returns (ext: bool)
      requires 1 < |g| < order && Past(g) && NeverBack(noted[|g| - 1])
      modifies this`at
      ensures Past(g) && (ext <==> g in noted[|g| - 1])
    {
      var o, current := |g| - 1, at[|g| - 1];
      while current < |noted[o]| && Less(noted[o][current], g)
        invariant current <= |noted[o]| && forall x {:trigger noted[o][x]} :: 0 <= x < current ==> Less(noted[o][x], g)
      {
        current := current + 1;
      }
      at := at[o := current];
      ext := current < |noted[o]| && noted[o][current] == g;
      FoundHere(noted[o], current, g);
    }
  }

  /** In a sorted list `g` can only be the first that does not come before it. */
  lemma {:induction false} FoundHere(list: seq<Gram>, k: nat, g: Gram)
    requires k <= |list| && NeverBack(list)
    requires forall x {:trigger list[x]} :: 0 <= x < k ==> Less(list[x], g)
    requires k < |list| ==> !Less(list[k], g)
    ensures g in list <==> k < |list| && list[k] == g
  {
    LessIrreflexive(g);
    if k < |list| && list[k] != g {
      LessTotal(list[k], g);
      forall x | k <= x < |list|
        ensures list[x] != g
      {
        if x > k {
          StrictBefore(g, list[k], list[x]);
        }
      }
    }
  }

  /** Values, marks and notes once the messages to fewer than `i` words are delivered. */
  ghost predicate UpTo(events: seq<Event>, levels0: seq<Backs>, files: seq<seq<Gram>>, levels: seq<Backs>,
                       values: Values, noted: seq<seq<Gram>>, i: nat)
    requires StreamOk(events, |levels0| + 1)
  {
    && |levels| == |levels0| == |noted| == |files| && PaidUpTo(events, levels0, values, i)
    && (forall o {:trigger levels[o]} :: 0 <= o < |levels| ==> LevelUpTo(events, levels0[o], levels[o], o + 1, i))
    && forall o {:trigger noted[o]} :: 0 <= o < |noted| ==> NotedUpTo(events, files[o], noted[o], o + 1, i)
  }

  ghost predicate LevelUpTo(events: seq<Event>, level0: Backs, level: Backs, length: nat, i: nat) {
    if length < i then Marked(Messages(events, |events|, length), level0, level) else level == level0
  }

  ghost predicate NotedUpTo(events: seq<Event>, file: seq<Gram>, noted: seq<Gram>, length: nat, i: nat) {
    if 1 < length < i then Noted(Messages(events, |events|, length), file, noted) else noted == []
  }

  lemma {:induction false} NothingDelivered(events: seq<Event>, levels: seq<Backs>, files: seq<seq<Gram>>,
                                            values: Values, noted: seq<seq<Gram>>)
    requires StreamOk(events, |levels| + 1) && |levels| == |files| && values == Bases(events, |events|)
    requires noted == seq(|levels|, _ => [])
    ensures UpTo(events, levels, files, levels, values, noted, 1)
  {
    BasesAre(events, |events|);
  }

  /** The messages are delivered length by length. */
  method DeliverAll(messages: seq<seq<Message>>, levels0: seq<Backs>, files: seq<seq<Gram>>, values0: Values,
                    ghost events: seq<Event>)
    returns (levels: seq<Backs>, values: Values, noted: seq<seq<Gram>>)
    requires |messages| == |files| == |levels0| >= 1 && StreamOk(events, |levels0| + 1) && AllBacksOk(levels0, files)
    requires forall i {:trigger messages[i]} :: 0 <= i < |messages| ==> messages[i] == Messages(events, |events|, i + 1)
    requires forall m {:trigger m in messages[0]} :: m in messages[0] ==> m.to in levels0[0]
    requires values0 == Bases(events, |events|)
    ensures UpTo(events, levels0, files, levels, values, noted, |levels0| + 1)
  {
    noted := seq(|levels0|, _ => []);
    NothingDelivered(events, levels0, files, values0, noted);
    levels, values := DeliverUnigrams(messages[0], levels0, files, values0, noted, events);
    for i := 2 to |levels0| + 1
      invariant UpTo(events, levels0, files, levels, values, noted, i)
    {
      levels, values, noted := DeliverLevel(i, messages[i - 1], levels0, files, levels, values, noted, events);
    }
  }

  method DeliverUnigrams(sent: seq<Message>, levels0: seq<Backs>, files: seq<seq<Gram>>, values0: Values,
                         ghost noted: seq<seq<Gram>>, ghost events: seq<Event>)
    returns (levels: seq<Backs>, values: Values)
    requires StreamOk(events, |levels0| + 1) && AllBacksOk(levels0, files) && |levels0| >= 1
    requires sent == Messages(events, |events|, 1) && UpTo(events, levels0, files, levels0, values0, noted, 1)
    requires forall m {:trigger m in sent} :: m in sent ==> m.to in levels0[0]
    ensures UpTo(events, levels0, files, levels, values, noted, 2)
  {
    Deliverable(events, levels0, files, values0, 1);
    var backs;
    backs, values := ApplyUnigrams(sent, levels0[0], values0);
    OneLevelPaid(events, levels0, 1, backs, values0, values);
    levels := levels0[0 := backs];
  }

  method DeliverLevel(i: nat, sent: seq<Message>, levels0: seq<Backs>, files: seq<seq<Gram>>, before: seq<Backs>,
                      values0: Values, noted0: seq<seq<Gram>>, ghost events: seq<Event>)
    returns (levels: seq<Backs>, values: Values, noted: seq<seq<Gram>>)
    requires StreamOk(events, |levels0| + 1) && AllBacksOk(levels0, files) && 2 <= i <= |levels0|
    requires sent == Messages(events, |events|, i) && UpTo(events, levels0, files, before, values0, noted0, i)
    ensures UpTo(events, levels0, files, levels, values, noted, i + 1)
  {
    Deliverable(events, levels0, files, values0, i);
    assert LevelUpTo(events, levels0[i - 1], before[i - 1], i, i);
    var backs, asked;
    backs, values, asked := Apply(sent, files[i - 1], before[i - 1], values0);
    OneLevelPaid(events, levels0, i, backs, values0, values);
    levels, noted := before[i - 1 := backs], noted0[i - 1 := asked];
    OneLevelUp(events, levels0, files, before, noted0, levels, noted, i);
  }

  lemma {:induction false} OneLevelUp(events: seq<Event>, levels0: seq<Backs>, files: seq<seq<Gram>>,
                                      before: seq<Backs>, noted0: seq<seq<Gram>>, levels: seq<Backs>,
                                      noted: seq<seq<Gram>>, i: nat)
    requires |levels0| == |files| == |before| == |noted0| == |levels| == |noted| && 2 <= i <= |levels0|
    requires forall o {:trigger before[o]} :: 0 <= o < |before| ==> LevelUpTo(events, levels0[o], before[o], o + 1, i)
    requires forall o {:trigger noted0[o]} :: 0 <= o < |noted0| ==> NotedUpTo(events, files[o], noted0[o], o + 1, i)
    requires levels == before[i - 1 := levels[i - 1]] && noted == noted0[i - 1 := noted[i - 1]]
    requires Marked(Messages(events, |events|, i), levels0[i - 1], levels[i - 1])
    requires Noted(Messages(events, |events|, i), files[i - 1], noted[i - 1])
    ensures forall o {:trigger levels[o]} :: 0 <= o < |levels| ==>
              LevelUpTo(events, levels0[o], levels[o], o + 1, i + 1)
    ensures forall o {:trigger noted[o]} :: 0 <= o < |noted| ==> NotedUpTo(events, files[o], noted[o], o + 1, i + 1)
  {
    forall o | 0 <= o < |levels|
      ensures LevelUpTo(events, levels0[o], levels[o], o + 1, i + 1)
      ensures NotedUpTo(events, files[o], noted[o], o + 1, i + 1)
    {
      assert LevelUpTo(events, levels0[o], before[o], o + 1, i) && NotedUpTo(events, files[o], noted0[o], o + 1, i);
    }
  }

  /** The messages of one length meet what Apply asks. */
  lemma {:induction false} Deliverable(events: seq<Event>, levels: seq<Backs>, files: seq<seq<Gram>>, values: Values,
                                       i: nat)
    requires StreamOk(events, |levels| + 1) && AllBacksOk(levels, files) && 1 <= i <= |levels|
    requires forall x {:trigger events[x]} :: 0 <= x < |events| && events[x].Blank? ==> events[x].gram in values
    ensures var ms := Messages(events, |events|, i);
            OneEach(ms) && forall m {:trigger m in ms} :: m in ms ==> m.blank in values
    ensures BacksOk(levels[i - 1], files[i - 1], i)
  {
    var ms := Messages(events, |events|, i);
    MessagesOneEach(events, |events|, i);
    forall m | m in ms
      ensures m.blank in values
    {
      MessagesAre(events, |events|, i, m);
    }
  }
}
