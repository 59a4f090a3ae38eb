/**
 * A whole drill: AskQuestions of `engine/ask.go` (and its older copies)
 * with the three goroutines it starts. The session sends on Qachan and
 * Command, one fan-out per channel forwards the non-empty strings to the
 * Publisher channel, and the publisher renders what it reads.
 *
 * The session closes Qachan and Command once the pass limit is reached and
 * waits for the three goroutines. Nobody closes Publisher, so the
 * publisher returns only after reading 2·N·L items and printing the limit
 * line. AskQuestions therefore returns only when exactly that many items
 * are forwarded. With fewer, the publisher is blocked for good on a
 * receive from Publisher. With more, as when a non-empty line is typed in
 * interactive mode, a fan-out is blocked for good sending the surplus item,
 * and AskQuestions waits for it: the session itself closes both channels
 * and waits only for the goroutines. Either way AskQuestions never returns
 * and every goroutine of the drill is blocked, which Go's runtime reports as
 * a fatal deadlock when nothing else can run; the model stops at the
 * blocked state.
 *
 * The goroutines run concurrently; the model fixes one interleaving, the
 * one the unbuffered channels make likely: the publisher receives the
 * strings in the order the session sends them, so a command line arrives
 * after the question it follows and before that question's answer.
 */
module Drill {
  import opened Wrappers
  import opened Strings
  import opened QuestionBank
  import opened Arith
  import opened Session
  import opened Relay

  /**
   * Qachan's items with the command lines slotted in, one after each
   * question, pair by pair, while there are command lines.
   */
  function Arrival(qachan: seq<string>, commands: seq<string>): (r: seq<string>)
    ensures |r| <= |qachan| + |commands|
    ensures 2 * |commands| <= |qachan| ==> |r| == |qachan| + |commands|
    decreases |qachan|
  {
    if |qachan| < 2 || commands == [] then qachan
    else [qachan[0], commands[0], qachan[1]] + Arrival(qachan[2..], commands[1..])
  }

  /** One more pair without a command line comes after everything before it. */
  lemma {:induction false} ArrivalSnoc(qachan: seq<string>, commands: seq<string>, q: string, a: string)
    requires |qachan| % 2 == 0 && 2 * |commands| <= |qachan|
    ensures Arrival(qachan + [q, a], commands) == Arrival(qachan, commands) + [q, a]
    decreases |qachan|
  {
    if commands != [] {
      assert (qachan + [q, a])[2..] == qachan[2..] + [q, a];
      ArrivalSnoc(qachan[2..], commands[1..], q, a);
    }
  }

  /** One more pair with its command line, when every earlier pair had one. */
  lemma {:induction false} ArrivalSnocCommand(qachan: seq<string>, commands: seq<string>, q: string, c: string, a: string)
    requires |qachan| == 2 * |commands|
    ensures Arrival(qachan + [q, a], commands + [c]) == Arrival(qachan, commands) + [q, c, a]
    decreases |qachan|
  {
    if commands == [] {
      assert qachan + [q, a] == [q, a];
      assert Arrival([q, a], [c]) == [q, c, a] + Arrival([], []);
    } else {
      assert (qachan + [q, a])[2..] == qachan[2..] + [q, a];
      assert (commands + [c])[1..] == commands[1..] + [c];
      ArrivalSnocCommand(qachan[2..], commands[1..], q, c, a);
    }
  }

  /** Each pair's question, the line read for it if any, and its answer, one block per pair. */
  function SentBlocks(sched: seq<(string, string)>, p: Params, input: seq<string>): seq<seq<string>> {
    seq(|sched|, j requires 0 <= j < |sched| => [sched[j].0] + LineRead(p, input, j) + [sched[j].1])
  }

  /** Pair after pair, the strings sent are Qachan's items with the command lines slotted in after their questions. */
  lemma {:induction false} SentArrival(sched: seq<(string, string)>, p: Params, input: seq<string>)
    ensures Concat(SentBlocks(sched, p, input)) == Arrival(Flatten(sched), CommandsSent(p, input, |sched|))
    decreases |sched|
  {
    if sched != [] {
      var n := |sched|;
      var init := sched[..n - 1];
      SentArrival(init, p, input);
      assert SentBlocks(sched, p, input)[..n - 1] == SentBlocks(init, p, input);
      CommandsSentNext(p, input, n);
      CommandsArePrefix(p, input, n - 1);
      ArrivalPair(Flatten(init), CommandsSent(p, input, n - 1), sched[n - 1].0, sched[n - 1].1, LineRead(p, input, n - 1),
        Flatten(sched), CommandsSent(p, input, n));
    }
  }

  /** A schedule's events, read on both channels in the order they are sent, are Qachan's items with the command lines slotted in. */
  lemma TraceSent(sched: seq<(string, string)>, p: Params, input: seq<string>)
    ensures Carried(Concat(PairBlocks(sched, p, input)) + [Closed], Either) ==
      Arrival(Flatten(sched), CommandsSent(p, input, |sched|))
  {
    var blocks := PairBlocks(sched, p, input);
    forall j | 0 <= j < |sched|
      ensures Carried(blocks[j], Either) == SentBlocks(sched, p, input)[j]
    {
      PairBlocksAt(sched, p, input, j);
      PairSent(sched[j].0, sched[j].1, p, input, j);
    }
    CarriedConcat(blocks, SentBlocks(sched, p, input), Either);
    SentArrival(sched, p, input);
    CarriedAppend(Concat(blocks), [Closed], Either);
    CarriedOne(Closed, Either);
    assert Concat(SentBlocks(sched, p, input)) + [] == Concat(SentBlocks(sched, p, input));
  }

  /** One more pair, with the command line read for it if any, arrives after everything before it. */
  lemma ArrivalPair(qachan: seq<string>, commands: seq<string>, q: string, a: string, line: seq<string>,
                     qachan': seq<string>, commands': seq<string>)
    requires |qachan| % 2 == 0 && 2 * |commands| <= |qachan| && |line| <= 1
    requires line != [] ==> |qachan| == 2 * |commands|
    requires qachan' == qachan + [q, a] && commands' == commands + line
    ensures Arrival(qachan', commands') == Arrival(qachan, commands) + ([q] + line + [a])
  {
    if line == [] {
      assert commands + line == commands;
      ArrivalSnoc(qachan, commands, q, a);
    } else {
      ArrivalSnocCommand(qachan, commands, q, line[0], a);
      assert line == [line[0]];
    }
  }

  /** What the publisher reads in a session: the non-empty strings sent, in the order they are sent. */
  function Published(qa: QA, p: Params, v: Variant, draws: seq<nat>, input: seq<string>): seq<string>
    requires Ready(qa, p, draws)
  {
    NonEmpty(Carried(SessionTrace(qa, p, v, draws, input), Either))
  }

  /** The publisher reads Qachan's non-empty items with the non-empty command lines slotted in after their questions. */
  lemma PublishedArrival(qa: QA, p: Params, v: Variant, draws: seq<nat>, input: seq<string>)
    requires Ready(qa, p, draws)
    ensures Published(qa, p, v, draws, input) ==
      NonEmpty(Arrival(Flatten(Schedule(qa, p, v, draws)), CommandsSent(p, input, PairCount(qa, p))))
  {
    TraceSent(Schedule(qa, p, v, draws), p, input);
  }

  /**
   * How a drill ends: refused for an empty question set, AskQuestions
   * returning, or AskQuestions never returning because its goroutines are
   * blocked for good.
   */
  datatype DrillEnd = Refused | Returns | Blocked

  /**
   * AskQuestions with its goroutines: an empty question set stops the
   * current copy before anything is started; otherwise the output is the
   * publisher's rendering of what the two fan-outs forward, and
   * AskQuestions returns exactly when the publisher reads every forwarded
   * item and stops at the limit.
   */
  method AskQuestionsAndRender(qa: QA, p: Params, v: Variant, draws: seq<nat>, input: seq<string>)
    returns (end: DrillEnd, shown: Option<Rendering>)
    requires qa.Valid() && DrawsFit(p, qa.GetCount(), draws)
    requires v == Legacy ==> qa.GetCount() > 0
    ensures qa.GetCount() == 0 <==> end == Refused
    ensures qa.GetCount() == 0 ==> shown == None
    ensures qa.GetCount() > 0 ==>
      shown == Some(Render(Published(qa, p, v, draws, input), false, qa.GetCount(), p.limit))
    ensures qa.GetCount() > 0 ==>
      (end == Returns <==> |Published(qa, p, v, draws, input)| == 2 * PairCount(qa, p))
  {
    var events, outcome := AskQuestions(qa, p, v, draws, input);
    if outcome == EmptyQuestionSet {
      return Refused, None;
    }
    var published := FanOutChannel(Carried(events, Either));
    var out, ending := PublishChanToWriter(published, false, qa.GetCount(), p.limit);
    shown := Some(Rendering(out, ending));
    var itemsRead := 2 * qa.GetCount() * Passes(p.limit);
    PairItems(qa.GetCount(), Passes(p.limit));
    if |published| >= itemsRead {
      RenderComplete(published, false, qa.GetCount(), p.limit);
    }
    // The publisher stops only at the limit, after reading 2·N·L items; a
    // forwarded item beyond those leaves its fan-out blocked for good.
    end := if ending == LimitReached && |published| == itemsRead then Returns else Blocked;
  }

  /** A drill that returns prints the header, L passes of pairs from what it published, and the limit line. */
  lemma DrillReturns(qa: QA, p: Params, v: Variant, draws: seq<nat>, input: seq<string>)
    requires Ready(qa, p, draws) && |Published(qa, p, v, draws, input)| == 2 * PairCount(qa, p)
    ensures Render(Published(qa, p, v, draws, input), false, qa.GetCount(), p.limit) ==
      Rendering([Header(qa.GetCount())] + PassWrites(Published(qa, p, v, draws, input), qa.GetCount(), p.limit, 0, 0), LimitReached)
  {
    PairItems(qa.GetCount(), Passes(p.limit));
    RenderComplete(Published(qa, p, v, draws, input), false, qa.GetCount(), p.limit);
  }

  /** The forwarded strings of Qachan with command lines slotted in: those of each, added up. */
  lemma {:induction false} ArrivalNonEmpty(qachan: seq<string>, commands: seq<string>)
    requires 2 * |commands| <= |qachan|
    ensures |NonEmpty(Arrival(qachan, commands))| == |NonEmpty(qachan)| + |NonEmpty(commands)|
    decreases |qachan|
  {
    if commands != [] {
      var q0, c0, q1 := qachan[0], commands[0], qachan[1];
      ArrivalNonEmpty(qachan[2..], commands[1..]);
      NonEmptyAppend([q0, c0, q1], Arrival(qachan[2..], commands[1..]));
      assert [q0, c0, q1] == [q0] + [c0] + [q1];
      NonEmptyAppend([q0] + [c0], [q1]);
      NonEmptyAppend([q0], [c0]);
      assert qachan == [q0] + [q1] + qachan[2..];
      NonEmptyAppend([q0] + [q1], qachan[2..]);
      NonEmptyAppend([q0], [q1]);
      assert commands == [c0] + commands[1..];
      NonEmptyAppend([c0], commands[1..]);
    }
  }

  /** Empty command lines slotted in are all dropped: only Qachan's non-empty items are forwarded. */
  lemma {:induction false} ArrivalEmptyCommands(qachan: seq<string>, commands: seq<string>)
    requires forall k :: 0 <= k < |commands| ==> commands[k] == ""
    ensures NonEmpty(Arrival(qachan, commands)) == NonEmpty(qachan)
    decreases |qachan|
  {
    if |qachan| >= 2 && commands != [] {
      var q0, c0, q1 := qachan[0], commands[0], qachan[1];
      ArrivalEmptyCommands(qachan[2..], commands[1..]);
      NonEmptyAppend([q0, c0, q1], Arrival(qachan[2..], commands[1..]));
      assert [q0, c0, q1] == [q0] + [c0] + [q1];
      NonEmptyAppend([q0] + [c0], [q1]);
      NonEmptyAppend([q0], [c0]);
      assert NonEmpty([c0]) == [] by {
        assert [c0][..0] == [];
      }
      assert qachan == [q0] + [q1] + qachan[2..];
      NonEmptyAppend([q0] + [q1], qachan[2..]);
      NonEmptyAppend([q0], [q1]);
    }
  }

  /**
   * When no command line is forwarded, because the drill is not
   * interactive or every line typed is empty (Return pressed), the
   * publisher reads exactly Qachan's non-empty items.
   */
  lemma PublishedWithoutCommands(qa: QA, p: Params, v: Variant, draws: seq<nat>, input: seq<string>)
    requires Ready(qa, p, draws)
    requires !p.interactive || forall k :: 0 <= k < |input| ==> input[k] == ""
    ensures Published(qa, p, v, draws, input) == NonEmpty(Flatten(Schedule(qa, p, v, draws)))
  {
    var cs := CommandsSent(p, input, PairCount(qa, p));
    PublishedArrival(qa, p, v, draws, input);
    CommandsArePrefix(p, input, PairCount(qa, p));
    forall k | 0 <= k < |cs| ensures cs[k] == "" {
      assert cs[k] == input[k];
    }
    ArrivalEmptyCommands(Flatten(Schedule(qa, p, v, draws)), cs);
  }

  /** No question or answer the session shows is empty. */
  predicate TextsPresent(sched: seq<(string, string)>) {
    forall k :: 0 <= k < |sched| ==> sched[k].0 != "" && sched[k].1 != ""
  }

  /** Without command lines the publisher receives exactly what Qachan carried. */
  lemma ArrivalAlone(qachan: seq<string>)
    ensures Arrival(qachan, []) == qachan
  {
  }

  /** When every text is present, all of Qachan is forwarded. */
  lemma FlattenPresent(sched: seq<(string, string)>)
    requires TextsPresent(sched)
    ensures NonEmpty(Flatten(sched)) == Flatten(sched)
  {
    var xs := Flatten(sched);
    forall j | 0 <= j < |xs| ensures xs[j] != "" {
      FlattenIndex(sched, j / 2);
    }
    NonEmptyKeepsAll(xs);
  }

  /** The rendering of a Qachan stream whose texts are all present, for L passes of n pairs. */
  lemma RenderPresent(sched: seq<(string, string)>, n: int, maxLoops: int)
    requires n > 0 && |sched| == Passes(maxLoops) * n && TextsPresent(sched)
    ensures Render(NonEmpty(Flatten(sched)), false, n, maxLoops) ==
      Rendering([Header(n)] + PassWrites(Flatten(sched), n, maxLoops, 0, 0), LimitReached)
  {
    FlattenPresent(sched);
    PairItems(n, Passes(maxLoops));
    RenderComplete(Flatten(sched), false, n, maxLoops);
  }

  /**
   * A drill without interaction, or one in which every line typed is
   * empty, whose texts are all present completes:
   * the header, then L passes of a banner and the session's pairs, 2·N
   * items per pass, then the limit line, and AskQuestions returns.
   */
  lemma DrillCompletes(qa: QA, p: Params, v: Variant, draws: seq<nat>, input: seq<string>)
    requires Ready(qa, p, draws) && TextsPresent(Schedule(qa, p, v, draws))
    requires !p.interactive || forall k :: 0 <= k < |input| ==> input[k] == ""
    ensures Render(Published(qa, p, v, draws, input), false, qa.GetCount(), p.limit) ==
      Rendering([Header(qa.GetCount())] +
        PassWrites(Flatten(Schedule(qa, p, v, draws)), qa.GetCount(), p.limit, 0, 0), LimitReached)
    ensures |Published(qa, p, v, draws, input)| == 2 * PairCount(qa, p)
  {
    var sched := Schedule(qa, p, v, draws);
    PublishedWithoutCommands(qa, p, v, draws, input);
    RenderPresent(sched, qa.GetCount(), p.limit);
    FlattenPresent(sched);
  }

  /** A Qachan stream with an empty text: the publisher never reaches the limit. */
  lemma RenderMissing(sched: seq<(string, string)>, n: int, maxLoops: int, k: nat)
    requires n > 0 && |sched| == Passes(maxLoops) * n && k < |sched| && (sched[k].0 == "" || sched[k].1 == "")
    ensures |NonEmpty(Flatten(sched))| < 2 * |sched|
    ensures Render(NonEmpty(Flatten(sched)), false, n, maxLoops).ending == Waiting
    ensures forall w :: w in Render(NonEmpty(Flatten(sched)), false, n, maxLoops).writes ==> !w.Limit?
  {
    var items := Flatten(sched);
    FlattenIndex(sched, k);
    if sched[k].0 == "" {
      NonEmptyDrops(items, 2 * k);
    } else {
      NonEmptyDrops(items, 2 * k + 1);
    }
    assert 2 * |sched| == 2 * n * Passes(maxLoops) by {
      PairItems(n, Passes(maxLoops));
    }
    RenderShort(NonEmpty(items), false, n, maxLoops);
  }

  /**
   * A drill without interaction, or in which every line typed is empty,
   * where a question or an answer shown is the empty string never ends:
   * the fan-out drops that string, the publisher reads fewer items than
   * the limit needs and is blocked for good on its receive without
   * printing the limit line, so AskQuestions never returns.
   */
  lemma DrillStalls(qa: QA, p: Params, v: Variant, draws: seq<nat>, input: seq<string>, k: nat)
    requires Ready(qa, p, draws) && k < PairCount(qa, p)
    requires !p.interactive || forall j :: 0 <= j < |input| ==> input[j] == ""
    requires Schedule(qa, p, v, draws)[k].0 == "" || Schedule(qa, p, v, draws)[k].1 == ""
    ensures Render(Published(qa, p, v, draws, input), false, qa.GetCount(), p.limit).ending == Waiting
    ensures forall w :: w in Render(Published(qa, p, v, draws, input), false, qa.GetCount(), p.limit).writes ==> !w.Limit?
    ensures |Published(qa, p, v, draws, input)| < 2 * PairCount(qa, p)
  {
    var sched := Schedule(qa, p, v, draws);
    PublishedWithoutCommands(qa, p, v, draws, input);
    RenderMissing(sched, qa.GetCount(), p.limit, k);
  }

  /** The fan-out keeps the first two strings of a group when both are non-empty. */
  lemma NonEmptyFront(a: string, b: string, c: string, tail: seq<string>)
    requires a != "" && b != ""
    ensures var r := NonEmpty([a, b, c] + tail); |r| >= 2 && r[0] == a && r[1] == b
  {
    assert [a, b, c] + tail == [a, b] + ([c] + tail);
    NonEmptyAppend([a, b], [c] + tail);
    NonEmptyKeepsAll([a, b]);
  }

  /** A command line arriving after the first question is rendered as its answer. */
  lemma RenderCommandFirst(sched: seq<(string, string)>, commands: seq<string>, n: int, maxLoops: int)
    requires n > 0 && maxLoops > 0 && sched != [] && commands != [] && commands[0] != ""
    requires sched[0].0 != "" && sched[0].1 != ""
    ensures var w := Render(NonEmpty(Arrival(Flatten(sched), commands)), false, n, maxLoops).writes;
      |w| >= 5 && w[..5] == [Header(n), Banner(1, maxLoops), Question(sched[0].0), Answer(commands[0]), Separator]
  {
    var qachan := Flatten(sched);
    var items := NonEmpty(Arrival(qachan, commands));
    FlattenIndex(sched, 0);
    assert Arrival(qachan, commands) == [sched[0].0, commands[0], sched[0].1] + Arrival(qachan[2..], commands[1..]);
    NonEmptyFront(sched[0].0, commands[0], sched[0].1, Arrival(qachan[2..], commands[1..]));
    RenderOpening(items, false, n, maxLoops);
  }

  /**
   * In interactive mode a non-empty command line typed after the first
   * question takes the answer's place: the publisher prints it after the
   * arrow, where the answer was due.
   */
  lemma CommandTakesAnswerPlace(qa: QA, p: Params, v: Variant, draws: seq<nat>, input: seq<string>)
    requires Ready(qa, p, draws) && p.interactive && p.limit > 0
    requires input != [] && input[0] != "" && TextsPresent(Schedule(qa, p, v, draws))
    ensures var w := Render(Published(qa, p, v, draws, input), false, qa.GetCount(), p.limit).writes;
      |w| >= 5 && w[..5] == [Header(qa.GetCount()), Banner(1, p.limit), Question(Schedule(qa, p, v, draws)[0].0), Answer(input[0]), Separator]
  {
    var sched := Schedule(qa, p, v, draws);
    var commands := CommandsSent(p, input, PairCount(qa, p));
    PublishedArrival(qa, p, v, draws, input);
    MulMono(1, p.limit, qa.GetCount());
    assert commands[0] == input[0];
    RenderCommandFirst(sched, commands, qa.GetCount(), p.limit);
  }

  /**
   * In interactive mode a non-empty line typed during the drill is one
   * item more than the publisher reads: with the texts all present, more
   * than 2·N·L items are forwarded, so a fan-out is left blocked and
   * AskQuestions never returns.
   */
  lemma InteractiveSurplus(qa: QA, p: Params, v: Variant, draws: seq<nat>, input: seq<string>, j: nat)
    requires Ready(qa, p, draws) && p.interactive && TextsPresent(Schedule(qa, p, v, draws))
    requires j < PairCount(qa, p) && j < |input| && input[j] != ""
    ensures |Published(qa, p, v, draws, input)| > 2 * PairCount(qa, p)
  {
    var sched := Schedule(qa, p, v, draws);
    var cs := CommandsSent(p, input, PairCount(qa, p));
    PublishedArrival(qa, p, v, draws, input);
    CommandsArePrefix(p, input, PairCount(qa, p));
    ArrivalNonEmpty(Flatten(sched), cs);
    FlattenPresent(sched);
    assert cs[j] == input[j];
    NonEmptyMembers(cs, input[j]);
  }

  // ---------------------------------------------------------------------
  // Linear passes: the bank, in order, once per pass
  // ---------------------------------------------------------------------

  /** The bank's pairs in stored order, swapped in reversed mode. */
  function Bank(qa: QA, reversed: bool): (b: seq<(string, string)>)
    requires qa.Valid()
    ensures |b| == qa.GetCount()
  {
    seq(qa.GetCount(), i requires 0 <= i < qa.GetCount() => PairAt(qa, reversed, i))
  }

  /** The writes of a sequence of pairs: question, answer after the arrow, separator, pair after pair. */
  function PairsShown(pairs: seq<(string, string)>): (r: seq<Write>)
    ensures |r| == 3 * |pairs|
  {
    if pairs == [] then [] else [Question(pairs[0].0), Answer(pairs[0].1), Separator] + PairsShown(pairs[1..])
  }

  /** The expected output of a linear drill from pass `loop` on: a banner and the bank's pairs per pass, then the limit line. */
  function LinearPasses(bank: seq<Write>, maxLoops: int, loop: nat): seq<Write>
    decreases if loop < maxLoops then maxLoops - loop else 0
  {
    if loop >= maxLoops then [Limit(maxLoops)]
    else [Banner(loop + 1, maxLoops)] + bank + LinearPasses(bank, maxLoops, loop + 1)
  }

  /** Qachan's first pair is the first pair of the schedule, and the rest follows it. */
  lemma {:induction false} FlattenFront(sched: seq<(string, string)>)
    requires sched != []
    ensures Flatten(sched) == [sched[0].0, sched[0].1] + Flatten(sched[1..])
    decreases |sched|
  {
    if |sched| > 1 {
      var init := sched[..|sched| - 1];
      FlattenFront(init);
      assert init[1..] == sched[1..][..|sched[1..]| - 1];
    }
  }

  /** Read as pairs, what Qachan carries is rendered pair by pair. */
  lemma {:induction false} PairWritesFlatten(sched: seq<(string, string)>)
    ensures PairWrites(Flatten(sched)) == PairsShown(sched)
    decreases |sched|
  {
    if sched != [] {
      FlattenFront(sched);
      var xs := Flatten(sched);
      assert xs[2..] == Flatten(sched[1..]);
      PairWritesFlatten(sched[1..]);
    }
  }

  /** Pass k of a replaying session carries the whole bank, in order. */
  lemma PassItems(qa: QA, p: Params, v: Variant, draws: seq<nat>, k: nat)
    requires Ready(qa, p, draws) && p.mode != Random && Advances(v, p.mode)
    requires k < Passes(p.limit)
    ensures PassIs(Flatten(Schedule(qa, p, v, draws)), qa.GetCount(), k, Flatten(Bank(qa, p.reversed)))
  {
    var n := qa.GetCount();
    var sched := Schedule(qa, p, v, draws);
    var bank := Bank(qa, p.reversed);
    MulMono(k + 1, Passes(p.limit), n);
    var start := n * k;
    MulNonNeg(n, k);
    forall i | 0 <= i < n ensures sched[start + i] == bank[i] {
      DivModUnique(start + i, n, k, i);
      LinearReplay(qa, p, v, draws, start + i);
    }
    assert sched[start..start + n] == bank;
    FlattenRun(sched, bank, start);
  }

  /** Qachan's items for two runs of pairs one after the other. */
  lemma {:induction false} FlattenAppend(xs: seq<(string, string)>, ys: seq<(string, string)>)
    ensures Flatten(xs + ys) == Flatten(xs) + Flatten(ys)
    decreases |ys|
  {
    if ys == [] {
      assert xs + ys == xs;
    } else {
      var init := ys[..|ys| - 1];
      var last := [ys[|ys| - 1].0, ys[|ys| - 1].1];
      FlattenAppend(xs, init);
      assert (xs + ys)[..|xs + ys| - 1] == xs + init;
      assert Flatten(xs + ys) == Flatten(xs + init) + last;
      assert Flatten(ys) == Flatten(init) + last;
      ConcatAssoc(Flatten(xs), Flatten(init), last);
    }
  }

  /** When the pairs from `start` on are those of `bank`, so are the flattened items from 2·start on. */
  lemma FlattenRun(sched: seq<(string, string)>, bank: seq<(string, string)>, start: nat)
    requires start + |bank| <= |sched| && sched[start..start + |bank|] == bank
    ensures Flatten(sched)[2 * start..2 * start + 2 * |bank|] == Flatten(bank)
  {
    var pre, post := sched[..start], sched[start + |bank|..];
    assert sched == (pre + bank) + post;
    FlattenAppend(pre + bank, post);
    FlattenAppend(pre, bank);
    Middle(Flatten(pre), Flatten(bank), Flatten(post));
  }

  /** The middle part of three sequences joined. */
  lemma Middle<T>(a: seq<T>, b: seq<T>, c: seq<T>)
    ensures ((a + b) + c)[|a|..|a| + |b|] == b
  {
    assert forall i | 0 <= i < |b| :: ((a + b) + c)[|a| + i] == b[i];
  }

  /** Pass k (the 2n items from 2nk) of `items` is `block`. */
  predicate PassIs(items: seq<string>, n: int, k: nat, block: seq<string>) {
    n > 0 && 2 * (n * k) + 2 * n <= |items| && items[2 * (n * k)..2 * (n * k) + 2 * n] == block
  }

  /** When every pass from `loop` on carries the same block, the reference rendering repeats that block's pairs. */
  lemma {:induction false} RepeatedPasses(items: seq<string>, block: seq<string>, n: int, maxLoops: int, loop: nat, base: nat)
    requires n > 0 && loop <= Passes(maxLoops) && base == 2 * (n * loop)
    requires forall k :: loop <= k < Passes(maxLoops) ==> PassIs(items, n, k, block)
    ensures PassWrites(items, n, maxLoops, loop, base) == LinearPasses(PairWrites(block), maxLoops, loop)
    decreases Passes(maxLoops) - loop
  {
    if loop < maxLoops {
      assert PassIs(items, n, loop, block);
      assert base + 2 * n == 2 * (n * (loop + 1));
      RepeatedPasses(items, block, n, maxLoops, loop + 1, base + 2 * n);
    }
  }

  /** Every pass of a replaying session carries the bank. */
  lemma ReplayedPasses(qa: QA, p: Params, v: Variant, draws: seq<nat>)
    requires Ready(qa, p, draws) && p.mode != Random && Advances(v, p.mode)
    ensures forall k :: 0 <= k < Passes(p.limit) ==>
      PassIs(Flatten(Schedule(qa, p, v, draws)), qa.GetCount(), k, Flatten(Bank(qa, p.reversed)))
  {
    forall k | 0 <= k < Passes(p.limit)
      ensures PassIs(Flatten(Schedule(qa, p, v, draws)), qa.GetCount(), k, Flatten(Bank(qa, p.reversed)))
    {
      PassItems(qa, p, v, draws, k);
    }
  }

  /** A bank whose texts are all present yields a session whose texts are all present. */
  lemma ScheduleTexts(qa: QA, p: Params, v: Variant, draws: seq<nat>)
    requires Ready(qa, p, draws)
    requires forall i :: 0 <= i < qa.GetCount() ==> qa.GetQuestion(i) != "" && qa.GetAnswer(i) != ""
    ensures TextsPresent(Schedule(qa, p, v, draws))
  {
    var sched := Schedule(qa, p, v, draws);
    forall k | 0 <= k < |sched| ensures sched[k].0 != "" && sched[k].1 != "" {
      ScheduleAt(qa, p, v, draws, k);
    }
  }

  /**
   * A drill without interaction, or in which every line typed is empty,
   * that replays the bank (linear mode, or
   * summary mode in the current copy) and whose texts are all present
   * prints the header, then for each of the L passes its banner and every
   * pair of the bank in stored order, then the limit line.
   */
  lemma LinearDrill(qa: QA, p: Params, v: Variant, draws: seq<nat>, input: seq<string>)
    requires Ready(qa, p, draws) && p.mode != Random && Advances(v, p.mode)
    requires !p.interactive || forall k :: 0 <= k < |input| ==> input[k] == ""
    requires forall i :: 0 <= i < qa.GetCount() ==> qa.GetQuestion(i) != "" && qa.GetAnswer(i) != ""
    ensures Render(Published(qa, p, v, draws, input), false, qa.GetCount(), p.limit) ==
      Rendering([Header(qa.GetCount())] + LinearPasses(PairsShown(Bank(qa, p.reversed)), p.limit, 0), LimitReached)
  {
    ScheduleTexts(qa, p, v, draws);
    DrillCompletes(qa, p, v, draws, input);
    ReplayedPasses(qa, p, v, draws);
    RepeatedPasses(Flatten(Schedule(qa, p, v, draws)), Flatten(Bank(qa, p.reversed)), qa.GetCount(), p.limit, 0, 0);
    PairWritesFlatten(Bank(qa, p.reversed));
  }
}
