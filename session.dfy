/**
 * The drill session: AskQuestions of `engine/ask.go` and its older copies
 * in `ask.go` and `cmd/lib.go`, sequentialised.
 *
 * The Go function sends each question and each answer on the `Qachan`
 * channel, sleeps or forwards one line of standard input on the `Command`
 * channel between the two, and closes both channels once the pass limit is
 * reached. Here the session returns the trace of those events, in the
 * order it performs them; what each channel carried is read off the trace.
 * The random generator is a sequence of draws and standard input a
 * sequence of lines.
 *
 * The copies differ in two places, selected by `Variant`: the current one
 * refuses an empty question set and advances the index in every mode but
 * random; the older ones have no guard (an empty set divides by zero) and
 * advance the index in linear mode only.
 */
module Session {
  import opened QuestionBank
  import opened Arith

  /** The interrogation modes. */
  datatype Mode = Linear | Random | Summary

  /** What the session reads of the interrogation parameters (the pause duration only matters to the clock). */
  datatype Params = Params(interactive: bool, mode: Mode, reversed: bool, limit: int)

  /** How the session ends: normally, or refused because the question set is empty. */
  datatype Outcome = Completed | EmptyQuestionSet

  /** The number of passes a limit allows: none for a limit below one. */
  function Passes(limit: int): nat {
    if limit <= 0 then 0 else limit
  }

  /** The current copy advances the index unless random; the older ones only in linear mode. */
  predicate Advances(v: Variant, mode: Mode) {
    if v == Current then mode != Random else mode == Linear
  }

  /** In random mode, the results of rand.Int31n(n): one draw per pair, each in [0, n). */
  predicate DrawsFit(p: Params, n: nat, draws: seq<nat>) {
    p.mode == Random ==> |draws| >= Passes(p.limit) * n && forall k :: 0 <= k < |draws| ==> draws[k] < n
  }

  /** What a session over `qa` needs: matched pairs, at least one of them, and enough draws. */
  predicate Ready(qa: QA, p: Params, draws: seq<nat>) {
    qa.Valid() && qa.GetCount() > 0 && DrawsFit(p, qa.GetCount(), draws)
  }

  /** The number of pairs a session sends: one per question per pass. */
  function PairCount(qa: QA, p: Params): nat {
    Passes(p.limit) * qa.GetCount()
  }

  /** The index the k-th pair uses: a fresh draw, k mod n, or 0 in the older summary mode. */
  function IndexAt(qa: QA, p: Params, v: Variant, draws: seq<nat>, k: nat): (i: nat)
    requires Ready(qa, p, draws) && k < PairCount(qa, p)
    ensures i < qa.GetCount()
  {
    if p.mode == Random then draws[k]
    else if Advances(v, p.mode) then k % qa.GetCount()
    else 0
  }

  /** The question and the answer shown for index `i`, swapped in reversed mode. */
  function PairAt(qa: QA, reversed: bool, i: nat): (string, string)
    requires qa.Valid() && i < qa.GetCount()
  {
    if reversed then (qa.GetAnswer(i), qa.GetQuestion(i)) else (qa.GetQuestion(i), qa.GetAnswer(i))
  }

  /** The pairs a session shows, in order: pair k is the one at `IndexAt(k)`. */
  function Schedule(qa: QA, p: Params, v: Variant, draws: seq<nat>): seq<(string, string)>
    requires Ready(qa, p, draws)
  {
    seq(PairCount(qa, p), k requires 0 <= k < PairCount(qa, p) => PairAt(qa, p.reversed, IndexAt(qa, p, v, draws, k)))
  }

  /** Pair k of the schedule, read back: there is one pair per question per pass. */
  lemma ScheduleAt(qa: QA, p: Params, v: Variant, draws: seq<nat>, k: nat)
    requires Ready(qa, p, draws) && k < PairCount(qa, p)
    ensures |Schedule(qa, p, v, draws)| == PairCount(qa, p)
    ensures Schedule(qa, p, v, draws)[k] == PairAt(qa, p.reversed, IndexAt(qa, p, v, draws, k))
  {
  }

  /** What Qachan carries for a sequence of pairs: question then answer, pair after pair. */
  function Flatten(sched: seq<(string, string)>): (r: seq<string>)
    ensures |r| == 2 * |sched|
  {
    if sched == [] then [] else Flatten(sched[..|sched| - 1]) + [sched[|sched| - 1].0, sched[|sched| - 1].1]
  }

  /** Pair j of the schedule sits at positions 2j and 2j+1 of what Qachan carries. */
  lemma {:induction false} FlattenIndex(sched: seq<(string, string)>, j: nat)
    requires j < |sched|
    ensures Flatten(sched)[2 * j] == sched[j].0 && Flatten(sched)[2 * j + 1] == sched[j].1
    decreases |sched|
  {
    if j < |sched| - 1 {
      var init := sched[..|sched| - 1];
      FlattenIndex(init, j);
      assert Flatten(sched)[2 * j] == Flatten(init)[2 * j];
      assert Flatten(sched)[2 * j + 1] == Flatten(init)[2 * j + 1];
    }
  }

  /**
   * What Command carries after k pairs: in interactive mode one input line
   * per pair while the input lasts, otherwise nothing.
   */
  function CommandsSent(p: Params, input: seq<string>, k: nat): seq<string> {
    if !p.interactive then [] else if k <= |input| then input[..k] else input
  }

  /** The line the session reads for pair k, if it reads one: in interactive mode, while the input lasts. */
  function LineRead(p: Params, input: seq<string>, k: nat): seq<string> {
    if p.interactive && k < |input| then [input[k]] else []
  }

  /** One pair further, Command has carried the next input line, if the session reads one. */
  lemma CommandsSentNext(p: Params, input: seq<string>, k: nat)
    requires 0 < k
    ensures CommandsSent(p, input, k) == CommandsSent(p, input, k - 1) + LineRead(p, input, k - 1)
  {
    if p.interactive && k - 1 < |input| {
      assert input[..k] == input[..k - 1] + [input[k - 1]];
    } else if p.interactive && k - 1 == |input| {
      assert input[..k - 1] == input;
    }
  }

  /** How many times the session has slept after k pairs: once per pair unless interactive. */
  function PausesTaken(p: Params, k: nat): nat {
    if p.interactive then 0 else k
  }

  // ---------------------------------------------------------------------
  // The session's events
  // ---------------------------------------------------------------------

  /**
   * What the session does, one event at a time: a send on Qachan (a
   * question or an answer), a line sent on Command, a pause, and the
   * closing of both channels.
   */
  datatype Event = Asked(text: string) | Typed(text: string) | Answered(text: string) | Slept | Closed

  /** The channels an event can be seen on. */
  datatype Channel = QaChannel | CommandChannel | Either

  /** Whether `e` is a send on channel `c`. */
  predicate SentOn(e: Event, c: Channel) {
    match e
    case Asked(_) => c != CommandChannel
    case Answered(_) => c != CommandChannel
    case Typed(_) => c != QaChannel
    case _ => false
  }

  /** The strings a trace sends on channel `c`, in order. */
  function Carried(t: seq<Event>, c: Channel): (r: seq<string>)
    ensures |r| <= |t|
  {
    if t == [] then []
    else Carried(t[..|t| - 1], c) + if SentOn(t[|t| - 1], c) then [t[|t| - 1].text] else []
  }

  /** The number of pauses in a trace. */
  function Pauses(t: seq<Event>): nat {
    if t == [] then 0 else Pauses(t[..|t| - 1]) + if t[|t| - 1] == Slept then 1 else 0
  }

  /** What a trace carries, and its pauses, split at any point. */
  lemma {:induction false} CarriedAppend(t: seq<Event>, u: seq<Event>, c: Channel)
    ensures Carried(t + u, c) == Carried(t, c) + Carried(u, c)
    ensures Pauses(t + u) == Pauses(t) + Pauses(u)
    decreases |u|
  {
    if u == [] {
      assert t + u == t;
    } else {
      var init := u[..|u| - 1];
      assert (t + u)[..|t + u| - 1] == t + init;
      CarriedAppend(t, init, c);
    }
  }

  /** What a pair's events hold between the question and the answer: the line read, a pause, or nothing. */
  function Between(p: Params, input: seq<string>, k: nat): (r: seq<Event>)
    ensures |r| <= 1
  {
    if !p.interactive then [Slept] else if k < |input| then [Typed(input[k])] else []
  }

  /**
   * The events of the k-th pair (q, a): the question, then the input line
   * read in interactive mode while the input lasts or a pause otherwise,
   * then the answer.
   */
  function PairEvents(q: string, a: string, p: Params, input: seq<string>, k: nat): (r: seq<Event>)
    ensures 2 <= |r| <= 3 && r[0] == Asked(q) && r[|r| - 1] == Answered(a)
  {
    [Asked(q)] + Between(p, input, k) + [Answered(a)]
  }

  /** A sequence of blocks laid end to end. */
  function Concat<T>(blocks: seq<seq<T>>): seq<T> {
    if blocks == [] then [] else Concat(blocks[..|blocks| - 1]) + blocks[|blocks| - 1]
  }

  /** The first k blocks, laid end to end: what has been produced after k blocks. */
  function ConcatFirst<T>(blocks: seq<seq<T>>, k: nat): seq<T>
    requires k <= |blocks|
  {
    if k == 0 then [] else ConcatFirst(blocks, k - 1) + blocks[k - 1]
  }

  /** The first k blocks are the concatenation of the prefix of length k. */
  lemma {:induction false} ConcatFirstPrefix<T>(blocks: seq<seq<T>>, k: nat)
    requires k <= |blocks|
    ensures ConcatFirst(blocks, k) == Concat(blocks[..k])
  {
    if k > 0 {
      ConcatFirstPrefix(blocks, k - 1);
      assert blocks[..k][..k - 1] == blocks[..k - 1];
    }
  }

  /** All the blocks, laid end to end. */
  lemma ConcatFirstAll<T>(blocks: seq<seq<T>>)
    ensures ConcatFirst(blocks, |blocks|) == Concat(blocks)
  {
    ConcatFirstPrefix(blocks, |blocks|);
    assert blocks[..|blocks|] == blocks;
  }

  /** The events of a schedule's pairs, one block per pair. */
  function PairBlocks(sched: seq<(string, string)>, p: Params, input: seq<string>): (r: seq<seq<Event>>)
    ensures |r| == |sched|
  {
    if sched == [] then []
    else PairBlocks(sched[..|sched| - 1], p, input) + [PairEvents(sched[|sched| - 1].0, sched[|sched| - 1].1, p, input, |sched| - 1)]
  }

  /** Block j holds pair j's events. */
  lemma {:induction false} PairBlocksAt(sched: seq<(string, string)>, p: Params, input: seq<string>, j: nat)
    requires j < |sched|
    ensures PairBlocks(sched, p, input)[j] == PairEvents(sched[j].0, sched[j].1, p, input, j)
    decreases |sched|
  {
    if j < |sched| - 1 {
      PairBlocksAt(sched[..|sched| - 1], p, input, j);
    }
  }

  /** The whole session: every scheduled pair's events, then the closing of the channels. */
  function SessionTrace(qa: QA, p: Params, v: Variant, draws: seq<nat>, input: seq<string>): (t: seq<Event>)
    requires Ready(qa, p, draws)
    ensures t != [] && t[|t| - 1] == Closed
  {
    Concat(PairBlocks(Schedule(qa, p, v, draws), p, input)) + [Closed]
  }

  /** A single event carries its own text, if it is a send on the channel. */
  lemma CarriedOne(e: Event, c: Channel)
    ensures Carried([e], c) == if SentOn(e, c) then [e.text] else []
    ensures Pauses([e]) == if e == Slept then 1 else 0
  {
    assert [e][..0] == [];
  }

  /** One pair's events send its question and answer on Qachan, and pause once unless interactive. */
  lemma PairQa(q: string, a: string, p: Params, input: seq<string>, k: nat)
    ensures Carried(PairEvents(q, a, p, input, k), QaChannel) == [q, a]
    ensures Pauses(PairEvents(q, a, p, input, k)) == PausesTaken(p, 1)
  {
    assert PairEvents(q, a, p, input, k) == [Asked(q)] + Between(p, input, k) + [Answered(a)];
    PairOn(Asked(q), Between(p, input, k), Answered(a), QaChannel);
    CarriedOne(Asked(q), QaChannel);
    CarriedOne(Answered(a), QaChannel);
  }

  /** One pair's events send the line read, if any, on Command. */
  lemma PairCommand(q: string, a: string, p: Params, input: seq<string>, k: nat)
    ensures Carried(PairEvents(q, a, p, input, k), CommandChannel) == LineRead(p, input, k)
  {
    var mid := Between(p, input, k);
    assert PairEvents(q, a, p, input, k) == [Asked(q)] + mid + [Answered(a)];
    PairOn(Asked(q), mid, Answered(a), CommandChannel);
    CarriedOne(Asked(q), CommandChannel);
    CarriedOne(Answered(a), CommandChannel);
    if p.interactive && k < |input| {
      assert mid == [Typed(input[k])];
    } else {
      assert mid == [] || mid == [Slept];
    }
  }

  /** In the order they are sent, a pair's strings are its question, the line read if any, and its answer. */
  lemma PairSent(q: string, a: string, p: Params, input: seq<string>, k: nat)
    ensures Carried(PairEvents(q, a, p, input, k), Either) == [q] + LineRead(p, input, k) + [a]
  {
    assert PairEvents(q, a, p, input, k) == [Asked(q)] + Between(p, input, k) + [Answered(a)];
    PairOn(Asked(q), Between(p, input, k), Answered(a), Either);
    CarriedOne(Asked(q), Either);
    CarriedOne(Answered(a), Either);
  }

  /** Three runs of events, read on one channel. */
  lemma PairOn(x: Event, mid: seq<Event>, y: Event, c: Channel)
    requires |mid| <= 1
    ensures Carried([x] + mid + [y], c) == Carried([x], c) + Carried(mid, c) + Carried([y], c)
    ensures Pauses([x] + mid + [y]) == Pauses([x]) + Pauses(mid) + Pauses([y])
    ensures Carried(mid, c) == if mid != [] && SentOn(mid[0], c) then [mid[0].text] else []
    ensures Pauses(mid) == if mid != [] && mid[0] == Slept then 1 else 0
  {
    CarriedAppend([x] + mid, [y], c);
    CarriedAppend([x], mid, c);
    if mid != [] {
      assert mid == [mid[0]];
      CarriedOne(mid[0], c);
    }
  }

  /** Read on a channel, blocks laid end to end carry what each block carries, laid end to end. */
  lemma {:induction false} CarriedConcat(blocks: seq<seq<Event>>, outs: seq<seq<string>>, c: Channel)
    requires |outs| == |blocks|
    requires forall j :: 0 <= j < |blocks| ==> Carried(blocks[j], c) == outs[j]
    ensures Carried(Concat(blocks), c) == Concat(outs)
    decreases |blocks|
  {
    if blocks != [] {
      var n := |blocks|;
      CarriedConcat(blocks[..n - 1], outs[..n - 1], c);
      CarriedAppend(Concat(blocks[..n - 1]), blocks[n - 1], c);
    }
  }

  /** Blocks that each pause as often as one pair does, laid end to end, pause as often as that many pairs. */
  lemma {:induction false} PausesConcat(blocks: seq<seq<Event>>, p: Params)
    requires forall j :: 0 <= j < |blocks| ==> Pauses(blocks[j]) == PausesTaken(p, 1)
    ensures Pauses(Concat(blocks)) == PausesTaken(p, |blocks|)
    decreases |blocks|
  {
    if blocks != [] {
      var n := |blocks|;
      PausesConcat(blocks[..n - 1], p);
      CarriedAppend(Concat(blocks[..n - 1]), blocks[n - 1], QaChannel);
    }
  }

  /** Each pair's question and answer, one block per pair. */
  function QaBlocks(sched: seq<(string, string)>): seq<seq<string>> {
    seq(|sched|, j requires 0 <= j < |sched| => [sched[j].0, sched[j].1])
  }

  /** What Qachan carries is every pair's question and answer, laid end to end. */
  lemma {:induction false} FlattenBlocks(sched: seq<(string, string)>)
    ensures Flatten(sched) == Concat(QaBlocks(sched))
    decreases |sched|
  {
    if sched != [] {
      var init := sched[..|sched| - 1];
      FlattenBlocks(init);
      assert QaBlocks(sched)[..|sched| - 1] == QaBlocks(init);
    }
  }

  /** The line read for each of the first k pairs, one block per pair. */
  function LineBlocks(p: Params, input: seq<string>, k: nat): seq<seq<string>> {
    seq(k, j requires 0 <= j < k => LineRead(p, input, j))
  }

  /** What Command carries after k pairs is the line read for each of them, laid end to end. */
  lemma {:induction false} CommandsBlocks(p: Params, input: seq<string>, k: nat)
    ensures CommandsSent(p, input, k) == Concat(LineBlocks(p, input, k))
  {
    if k > 0 {
      CommandsBlocks(p, input, k - 1);
      assert LineBlocks(p, input, k)[..k - 1] == LineBlocks(p, input, k - 1);
      CommandsSentNext(p, input, k);
    }
  }

  /**
   * Read channel by channel, a session's trace is what Qachan and Command
   * carried: every scheduled pair on Qachan, the input lines read on
   * Command, a pause per pair unless interactive, then the closing.
   */
  lemma SessionChannels(qa: QA, p: Params, v: Variant, draws: seq<nat>, input: seq<string>)
    requires Ready(qa, p, draws)
    ensures Carried(SessionTrace(qa, p, v, draws, input), QaChannel) == Flatten(Schedule(qa, p, v, draws))
    ensures Carried(SessionTrace(qa, p, v, draws, input), CommandChannel) == CommandsSent(p, input, PairCount(qa, p))
    ensures Pauses(SessionTrace(qa, p, v, draws, input)) == PausesTaken(p, PairCount(qa, p))
  {
    var sched := Schedule(qa, p, v, draws);
    TraceQa(sched, p, input);
    TraceCommands(sched, p, input);
    TracePauses(sched, p, input);
  }

  /** A schedule's events send every pair's question and answer on Qachan. */
  lemma TraceQa(sched: seq<(string, string)>, p: Params, input: seq<string>)
    ensures Carried(Concat(PairBlocks(sched, p, input)) + [Closed], QaChannel) == Flatten(sched)
  {
    var blocks := PairBlocks(sched, p, input);
    forall j | 0 <= j < |sched|
      ensures Carried(blocks[j], QaChannel) == QaBlocks(sched)[j]
    {
      PairBlocksAt(sched, p, input, j);
      PairQa(sched[j].0, sched[j].1, p, input, j);
    }
    CarriedConcat(blocks, QaBlocks(sched), QaChannel);
    FlattenBlocks(sched);
    CarriedAppend(Concat(blocks), [Closed], QaChannel);
    CarriedOne(Closed, QaChannel);
    assert Flatten(sched) + [] == Flatten(sched);
  }

  /** A schedule's events send on Command the line read for each pair. */
  lemma TraceCommands(sched: seq<(string, string)>, p: Params, input: seq<string>)
    ensures Carried(Concat(PairBlocks(sched, p, input)) + [Closed], CommandChannel) == CommandsSent(p, input, |sched|)
  {
    var blocks := PairBlocks(sched, p, input);
    forall j | 0 <= j < |sched|
      ensures Carried(blocks[j], CommandChannel) == LineBlocks(p, input, |sched|)[j]
    {
      PairBlocksAt(sched, p, input, j);
      PairCommand(sched[j].0, sched[j].1, p, input, j);
    }
    CarriedConcat(blocks, LineBlocks(p, input, |sched|), CommandChannel);
    CommandsBlocks(p, input, |sched|);
    CarriedAppend(Concat(blocks), [Closed], CommandChannel);
    CarriedOne(Closed, CommandChannel);
    assert CommandsSent(p, input, |sched|) + [] == CommandsSent(p, input, |sched|);
  }

  /** A schedule's events pause once per pair unless interactive. */
  lemma TracePauses(sched: seq<(string, string)>, p: Params, input: seq<string>)
    ensures Pauses(Concat(PairBlocks(sched, p, input)) + [Closed]) == PausesTaken(p, |sched|)
  {
    var blocks := PairBlocks(sched, p, input);
    forall j | 0 <= j < |sched|
      ensures Pauses(blocks[j]) == PausesTaken(p, 1)
    {
      PairBlocksAt(sched, p, input, j);
      PairQa(sched[j].0, sched[j].1, p, input, j);
    }
    PausesConcat(blocks, p);
    CarriedAppend(Concat(blocks), [Closed], QaChannel);
    CarriedOne(Closed, QaChannel);
  }

  /**
   * Where the index `i` stands before pair k: k mod N when it advances, 0
   * when it stays on the first pair; in random mode it is drawn afresh.
   */
  predicate Cursor(qa: QA, p: Params, v: Variant, i: nat, k: nat)
    requires qa.GetCount() > 0
  {
    i < qa.GetCount() &&
    (Advances(v, p.mode) ==> i == k % qa.GetCount()) &&
    (p.mode != Random && !Advances(v, p.mode) ==> i == 0)
  }

  /**
   * Picks pair k: a fresh draw in random mode, else the current index;
   * reads it, swapped in reversed mode; then moves the index on by one,
   * modulo N, where it advances.
   */
  method NextPair(qa: QA, p: Params, v: Variant, draws: seq<nat>, i: nat, k: nat)
    returns (question: string, answer: string, i': nat)
    requires Ready(qa, p, draws) && k < PairCount(qa, p) && Cursor(qa, p, v, i, k)
    ensures (question, answer) == PairAt(qa, p.reversed, IndexAt(qa, p, v, draws, k))
    ensures Cursor(qa, p, v, i', k + 1)
  {
    var n := qa.GetCount();
    i' := i;
    if p.mode == Random {
      i' := draws[k];
    }
    question, answer := qa.GetQuestion(i'), qa.GetAnswer(i');
    if p.reversed {
      question, answer := qa.GetAnswer(i'), qa.GetQuestion(i');
    }
    if Advances(v, p.mode) {
      ModNext(k, n);
      i' := (i' + 1) % n;
    }
  }

  /** The input lines read once k pairs have been asked: one per pair in interactive mode, until the input runs out. */
  function LinesScanned(p: Params, input: seq<string>, k: nat): (r: nat)
    ensures r <= |input| && r <= k
  {
    if !p.interactive then 0 else if k <= |input| then k else |input|
  }

  /** The events after pair k are those before it followed by pair k's own. */
  lemma BlockStep(sched: seq<(string, string)>, p: Params, input: seq<string>, blocks: seq<seq<Event>>, k: nat, question: string, answer: string)
    requires blocks == PairBlocks(sched, p, input) && k < |sched| && (question, answer) == sched[k]
    ensures ConcatFirst(blocks, k + 1) == ConcatFirst(blocks, k) + PairEvents(question, answer, p, input, k)
  {
    PairBlocksAt(sched, p, input, k);
  }

  /**
   * One pair of the session: the question is sent on Qachan; in interactive
   * mode the next input line, if there is one, is read and sent on Command,
   * otherwise the session sleeps; then the answer is sent on Qachan.
   * `scanned` counts the input lines read so far.
   */
  method AskPair(events: seq<Event>, question: string, answer: string, p: Params, input: seq<string>, k: nat, scanned: nat)
    returns (events': seq<Event>, scanned': nat)
    requires scanned == LinesScanned(p, input, k)
    ensures events' == events + PairEvents(question, answer, p, input, k)
    ensures scanned' == LinesScanned(p, input, k + 1)
  {
    events', scanned' := events + [Asked(question)], scanned;
    if p.interactive {
      if scanned' < |input| {
        events' := events' + [Typed(input[scanned'])];
        scanned' := scanned' + 1;
      }
    } else {
      events' := events' + [Slept];
    }
    events' := events' + [Answered(answer)];
  }

  /**
   * AskQuestions: with no question, the current copy reports and stops
   * before anything happens; otherwise the session's events are those of
   * every scheduled pair in turn (question, input line or pause, answer)
   * and the closing of both channels. The older copies demand at least one
   * question.
   */
  method AskQuestions(qa: QA, p: Params, v: Variant, draws: seq<nat>, input: seq<string>)
    returns (events: seq<Event>, outcome: Outcome)
    requires qa.Valid() && DrawsFit(p, qa.GetCount(), draws)
    requires v == Legacy ==> qa.GetCount() > 0
    ensures qa.GetCount() == 0 ==> outcome == EmptyQuestionSet && events == []
    ensures qa.GetCount() > 0 ==> outcome == Completed && events == SessionTrace(qa, p, v, draws, input)
    ensures qa.GetCount() > 0 ==>
      Carried(events, QaChannel) == Flatten(Schedule(qa, p, v, draws)) &&
      Carried(events, CommandChannel) == CommandsSent(p, input, PairCount(qa, p)) &&
      Pauses(events) == PausesTaken(p, PairCount(qa, p))
  {
    var nbOfQuestions := qa.GetCount();
    events := [];
    if v == Current && nbOfQuestions == 0 {
      return events, EmptyQuestionSet;
    }
    outcome := Completed;
    var loopsCount, i, idxQuestions := 0, 0, 0;
    var scanned := 0;
    ghost var passes := Passes(p.limit);
    ghost var sched := Schedule(qa, p, v, draws);
    ghost var blocks := PairBlocks(sched, p, input);
    ghost var total := |sched|;
    assert total == passes * nbOfQuestions;
    while true
      invariant 0 <= idxQuestions <= total
      invariant loopsCount == CeilDiv(idxQuestions, nbOfQuestions) <= passes
      invariant Cursor(qa, p, v, i, idxQuestions)
      invariant scanned == LinesScanned(p, input, idxQuestions)
      invariant events == ConcatFirst(blocks, idxQuestions)
      decreases total - idxQuestions
    {
      if idxQuestions % nbOfQuestions == 0 {
        loopsCount := loopsCount + 1;
        if loopsCount > p.limit {
          assert idxQuestions == total by {
            CeilDivBound(idxQuestions, nbOfQuestions, passes, total);
          }
          ConcatFirstAll(blocks);
          events := events + [Closed];
          break;
        }
      }
      assert idxQuestions < total && loopsCount == CeilDiv(idxQuestions + 1, nbOfQuestions) <= passes by {
        CeilDivBound(idxQuestions, nbOfQuestions, passes, total);
        CeilDivNext(idxQuestions, nbOfQuestions);
      }
      var question, answer;
      question, answer, i := NextPair(qa, p, v, draws, i, idxQuestions);
      ScheduleAt(qa, p, v, draws, idxQuestions);
      BlockStep(sched, p, input, blocks, idxQuestions, question, answer);
      events, scanned := AskPair(events, question, answer, p, input, idxQuestions, scanned);
      idxQuestions := idxQuestions + 1;
    }
    SessionChannels(qa, p, v, draws, input);
  }

  // ---------------------------------------------------------------------
  // Which pairs are asked
  // ---------------------------------------------------------------------

  /**
   * A session sends L·N questions and as many answers, N being the size of
   * the bank and L the limit (none for a limit below one): pair k's
   * question then its answer, for the index pair k uses.
   */
  lemma SessionQaItems(qa: QA, p: Params, v: Variant, draws: seq<nat>, k: nat)
    requires Ready(qa, p, draws) && k < PairCount(qa, p)
    ensures |Flatten(Schedule(qa, p, v, draws))| == 2 * PairCount(qa, p)
    ensures Flatten(Schedule(qa, p, v, draws))[2 * k] == PairAt(qa, p.reversed, IndexAt(qa, p, v, draws, k)).0
    ensures Flatten(Schedule(qa, p, v, draws))[2 * k + 1] == PairAt(qa, p.reversed, IndexAt(qa, p, v, draws, k)).1
  {
    FlattenIndex(Schedule(qa, p, v, draws), k);
  }

  /**
   * Outside random mode the current copy, and the older ones in linear
   * mode, replay the bank in order: pair k is pair k mod N of the bank, so
   * the bank is gone through once per pass.
   */
  lemma LinearReplay(qa: QA, p: Params, v: Variant, draws: seq<nat>, k: nat)
    requires Ready(qa, p, draws) && k < PairCount(qa, p) && Advances(v, p.mode)
    ensures Schedule(qa, p, v, draws)[k] == PairAt(qa, p.reversed, k % qa.GetCount())
  {
  }

  /** In random mode every pair is the bank's pair at its own draw. */
  lemma RandomDraws(qa: QA, p: Params, v: Variant, draws: seq<nat>, k: nat)
    requires Ready(qa, p, draws) && k < PairCount(qa, p) && p.mode == Random
    ensures draws[k] < qa.GetCount() && Schedule(qa, p, v, draws)[k] == PairAt(qa, p.reversed, draws[k])
  {
  }

  /**
   * Reversed mode shows, pair for pair, the stored answer as the question
   * and the stored question as the answer.
   */
  lemma ReversedSwaps(qa: QA, p: Params, v: Variant, draws: seq<nat>, k: nat)
    requires Ready(qa, p, draws) && k < PairCount(qa, p)
    ensures Schedule(qa, p.(reversed := true), v, draws)[k].0 == Schedule(qa, p.(reversed := false), v, draws)[k].1
    ensures Schedule(qa, p.(reversed := true), v, draws)[k].1 == Schedule(qa, p.(reversed := false), v, draws)[k].0
  {
    assert IndexAt(qa, p.(reversed := true), v, draws, k) == IndexAt(qa, p.(reversed := false), v, draws, k);
  }

  /**
   * The copies agree except in summary mode: there the current one walks
   * through the bank and the older ones repeat the first pair.
   */
  lemma CopiesAgree(qa: QA, p: Params, draws: seq<nat>)
    requires Ready(qa, p, draws) && p.mode != Summary
    ensures Schedule(qa, p, Current, draws) == Schedule(qa, p, Legacy, draws)
  {
    var c, l := Schedule(qa, p, Current, draws), Schedule(qa, p, Legacy, draws);
    forall k | 0 <= k < |c| ensures c[k] == l[k] {
      assert IndexAt(qa, p, Current, draws, k) == IndexAt(qa, p, Legacy, draws, k);
    }
  }

  /** In summary mode the older copies ask the first pair every time, the current one the whole bank in order. */
  lemma SummaryDiffers(qa: QA, p: Params, draws: seq<nat>, k: nat)
    requires Ready(qa, p, draws) && k < PairCount(qa, p) && p.mode == Summary
    ensures Schedule(qa, p, Legacy, draws)[k] == PairAt(qa, p.reversed, 0)
    ensures Schedule(qa, p, Current, draws)[k] == PairAt(qa, p.reversed, k % qa.GetCount())
  {
  }

  /**
   * Command carries a prefix of the input: every line while the input
   * lasts, one per pair, so all of it once it is no longer than the
   * session; nothing when not interactive.
   */
  lemma CommandsArePrefix(p: Params, input: seq<string>, k: nat)
    ensures |CommandsSent(p, input, k)| <= k && |CommandsSent(p, input, k)| <= |input|
    ensures CommandsSent(p, input, k) <= input
    ensures p.interactive && |input| <= k ==> CommandsSent(p, input, k) == input
    ensures p.interactive && k <= |input| ==> |CommandsSent(p, input, k)| == k
    ensures !p.interactive ==> CommandsSent(p, input, k) == []
  {
  }
}
