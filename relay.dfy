/**
 * The relay between the drill session and the terminal: fanOutChannel and
 * publishChanToWriter of `engine/channels.go` (copied in `cmd/lib.go`).
 *
 * A channel is the finite sequence of the strings sent on it before it is
 * closed, or before nothing more comes. Two fan-out goroutines forward the
 * non-empty strings of Qachan and Command to the Publisher channel; the
 * publisher goroutine renders what it reads as a sequence of writes to the
 * output: a header, a banner at the start of each pass, the odd items as
 * questions, the even items as answers followed by a separator line, and a
 * last line once the pass limit is reached.
 */
module Relay {
  import opened Strings
  import opened Arith

  // ---------------------------------------------------------------------
  // fanOutChannel
  // ---------------------------------------------------------------------

  /** The strings a fan-out forwards: the non-empty ones, in order. */
  function NonEmpty(xs: seq<string>): (r: seq<string>)
    ensures |r| <= |xs|
  {
    if xs == [] then []
    else NonEmpty(xs[..|xs| - 1]) + (if |xs[|xs| - 1]| != 0 then [xs[|xs| - 1]] else [])
  }

  /** fanOutChannel: reads until the channel is closed and forwards every non-empty string. */
  method FanOutChannel(readFrom: seq<string>) returns (writeTo: seq<string>)
    ensures writeTo == NonEmpty(readFrom)
  {
    writeTo := [];
    var k := 0;
    while k < |readFrom|
      invariant 0 <= k <= |readFrom|
      invariant writeTo == NonEmpty(readFrom[..k])
    {
      var v := readFrom[k];
      if |v| != 0 {
        writeTo := writeTo + [v];
      }
      assert readFrom[..k + 1][..k] == readFrom[..k];
      k := k + 1;
    }
    assert readFrom[..k] == readFrom;
  }

  /** Forwarding distributes over what was sent before and after. */
  lemma {:induction false} NonEmptyAppend(xs: seq<string>, ys: seq<string>)
    ensures NonEmpty(xs + ys) == NonEmpty(xs) + NonEmpty(ys)
    decreases |ys|
  {
    if ys == [] {
      assert xs + ys == xs;
    } else {
      assert (xs + ys)[..|xs + ys| - 1] == xs + ys[..|ys| - 1];
      NonEmptyAppend(xs, ys[..|ys| - 1]);
    }
  }

  /** A string is forwarded if and only if it was sent and is not empty. */
  lemma {:induction false} NonEmptyMembers(xs: seq<string>, v: string)
    ensures v in NonEmpty(xs) <==> v in xs && v != ""
    decreases |xs|
  {
    if xs != [] {
      NonEmptyMembers(xs[..|xs| - 1], v);
      assert xs == xs[..|xs| - 1] + [xs[|xs| - 1]];
    }
  }

  /** When nothing sent is empty, everything is forwarded as sent. */
  lemma {:induction false} NonEmptyKeepsAll(xs: seq<string>)
    requires forall k :: 0 <= k < |xs| ==> xs[k] != ""
    ensures NonEmpty(xs) == xs
    decreases |xs|
  {
    if xs != [] {
      NonEmptyKeepsAll(xs[..|xs| - 1]);
    }
  }

  /** An empty string sent is lost: fewer strings are forwarded than were sent. */
  lemma {:induction false} NonEmptyDrops(xs: seq<string>, k: nat)
    requires k < |xs| && xs[k] == ""
    ensures |NonEmpty(xs)| < |xs|
    decreases |xs|
  {
    var init := xs[..|xs| - 1];
    if k < |xs| - 1 {
      NonEmptyDrops(init, k);
    }
  }

  // ---------------------------------------------------------------------
  // publishChanToWriter
  // ---------------------------------------------------------------------

  /** One Fprintf of the publisher. */
  datatype Write =
    | Header(count: int)            // "Nb of questions: N"
    | Banner(loop: int, max: int)   // "Loop (k/L)"
    | Question(text: string)        // the item itself
    | Answer(text: string)          // "     --> item"
    | Separator                     // a line of dashes
    | Limit(max: int)               // "Limit reached. ..."

  /** The text of one write, for items free of formatting verbs. */
  function Text(w: Write): string {
    match w
    case Header(n) => "Nb of questions: " + IntToDecimal(n) + "\n"
    case Banner(k, l) => "Loop (" + IntToDecimal(k) + "/" + IntToDecimal(l) + ")\n"
    case Question(v) => v
    case Answer(v) => "     --> " + v + "\n"
    case Separator => Repeat("-", 27) + "\n"
    case Limit(l) => "Limit reached. Exiting. Number of loops set to: " + IntToDecimal(l) + "\n"
  }

  /** What the output receives from a sequence of writes. */
  function Output(ws: seq<Write>): string {
    if ws == [] then "" else Output(ws[..|ws| - 1]) + Text(ws[|ws| - 1])
  }

  /** A question and its answer appear as the question, an arrow, the answer, then a line of dashes. */
  lemma PairOutput(q: string, a: string)
    ensures Output([Question(q), Answer(a), Separator]) == q + "     --> " + a + "\n" + Repeat("-", 27) + "\n"
  {
    var ws := [Question(q), Answer(a), Separator];
    assert ws[..2] == [Question(q), Answer(a)];
    assert ws[..2][..1] == [Question(q)];
    assert ws[..2][..1][..0] == [];
    assert Output([Question(q)]) == q;
    assert Output([Question(q), Answer(a)]) == q + "     --> " + a + "\n";
  }

  /** How the publisher stops: the limit line, the channel closed, or blocked on a channel nobody sends on. */
  datatype Ending = LimitReached | ChannelClosed | Waiting

  datatype Rendering = Rendering(writes: seq<Write>, ending: Ending)

  /** The pair writes of an item: odd items are questions, even ones answers followed by the separator. */
  function ItemWrites(v: string, readCount: nat): seq<Write> {
    if readCount % 2 == 1 then [Question(v)] else [Answer(v), Separator]
  }

  /** The position in a pass of 2·q items after one more item: it wraps to 0 at the end of the pass. */
  function NextPos(pos: nat, q: int): nat {
    if pos + 1 == 2 * q then 0 else pos + 1
  }

  /**
   * What the publisher writes from the top of its loop, having read `read`
   * items, `pos` of them (that is, read mod 2·q) in the current pass, and
   * begun `loop` passes. `closed` says whether the channel is closed after
   * the items (the Publisher channel never is).
   */
  function RenderFrom(items: seq<string>, closed: bool, q: int, maxLoops: int, read: nat, pos: nat, loop: int): Rendering
    requires q > 0 && read <= |items| && pos < 2 * q
    decreases |items| - read
  {
    var top := pos == 0;
    if top && loop + 1 > maxLoops then Rendering([Limit(maxLoops)], LimitReached)
    else
      var loop' := if top then loop + 1 else loop;
      if read == |items| then
        Rendering(if top then [Banner(loop', maxLoops)] else [], if closed then ChannelClosed else Waiting)
      else
        var rest := RenderFrom(items, closed, q, maxLoops, read + 1, NextPos(pos, q), loop');
        var writes := ItemWrites(items[read], read + 1) + rest.writes;
        Rendering(if top then [Banner(loop', maxLoops)] + writes else writes, rest.ending)
  }

  /** Everything the publisher writes: the header, then the passes. */
  function Render(items: seq<string>, closed: bool, q: int, maxLoops: int): Rendering
    requires q > 0
  {
    var r := RenderFrom(items, closed, q, maxLoops, 0, 0, 0);
    Rendering([Header(q)] + r.writes, r.ending)
  }

  /**
   * publishChanToWriter: the items read from the channel, in order; the
   * question count is positive (the caller refuses an empty bank, and the
   * modulus by 2·qCount would panic).
   */
  method PublishChanToWriter(items: seq<string>, closed: bool, qCount: int, maxLoops: int)
    returns (out: seq<Write>, ending: Ending)
    requires qCount > 0
    ensures Rendering(out, ending) == Render(items, closed, qCount, maxLoops)
  {
    var itemsRead, currentLoop := 0, 0;
    ghost var pos: nat := 0;
    ghost var target := Render(items, closed, qCount, maxLoops);
    DivModUnique(0, 2 * qCount, 0, 0);
    out := [Header(qCount)];
    while true
      invariant 0 <= itemsRead <= |items| && pos == itemsRead % (2 * qCount)
      invariant out + RenderFrom(items, closed, qCount, maxLoops, itemsRead, pos, currentLoop).writes == target.writes
      invariant RenderFrom(items, closed, qCount, maxLoops, itemsRead, pos, currentLoop).ending == target.ending
      decreases |items| - itemsRead
    {
      ghost var before := out;
      ghost var (pos0, loop0) := (pos, currentLoop);
      if itemsRead % (2 * qCount) == 0 {
        currentLoop := currentLoop + 1;
        if currentLoop > maxLoops {
          StepLimit(items, closed, qCount, maxLoops, itemsRead, loop0);
          out := out + [Limit(maxLoops)];
          ending := LimitReached;
          return;
        }
        out := out + [Banner(currentLoop, maxLoops)];
      }
      if itemsRead == |items| {
        StepEnd(items, closed, qCount, maxLoops, pos0, loop0);
        ending := if closed then ChannelClosed else Waiting;
        return;
      }
      var v := items[itemsRead];
      itemsRead := itemsRead + 1;
      PosNext(itemsRead - 1, pos, qCount);
      pos := NextPos(pos, qCount);
      ghost var front := out;
      if itemsRead % 2 == 1 {
        out := out + [Question(v)];
      } else {
        out := out + [Answer(v), Separator];
      }
      ReadItem(items, closed, qCount, maxLoops, itemsRead - 1, pos0, loop0, currentLoop, before, front, out);
    }
  }

  /** At the top of a pass beyond the limit the publisher prints the limit line and returns. */
  lemma StepLimit(items: seq<string>, closed: bool, q: int, maxLoops: int, read: nat, loop: int)
    requires q > 0 && read <= |items| && loop + 1 > maxLoops
    ensures RenderFrom(items, closed, q, maxLoops, read, 0, loop) == Rendering([Limit(maxLoops)], LimitReached)
  {
  }

  /** With no item left to read the publisher waits (or stops, were the channel closed). */
  lemma StepEnd(items: seq<string>, closed: bool, q: int, maxLoops: int, pos: nat, loop: int)
    requires q > 0 && pos < 2 * q && (pos == 0 ==> loop + 1 <= maxLoops)
    ensures RenderFrom(items, closed, q, maxLoops, |items|, pos, loop) ==
      Rendering(if pos == 0 then [Banner(loop + 1, maxLoops)] else [], if closed then ChannelClosed else Waiting)
  {
  }

  /** The position in the pass follows the count of items read. */
  lemma PosNext(read: nat, pos: nat, q: int)
    requires q > 0 && pos == read % (2 * q)
    ensures NextPos(pos, q) == (read + 1) % (2 * q)
  {
    DivModNext(read, 2 * q);
    if pos + 1 < 2 * q {
      DivModUnique(pos + 1, 2 * q, 0, pos + 1);
    }
  }

  /**
   * One item read by the publisher: what was written before it, with the
   * banner opening a pass when the item is the pass's first, followed by
   * the item's writes and what comes after, is what was still to come.
   */
  lemma ReadItem(items: seq<string>, closed: bool, q: int, maxLoops: int, read: nat, pos: nat, loop: int, loop': int,
                 before: seq<Write>, front: seq<Write>, after: seq<Write>)
    requires q > 0 && read < |items| && pos < 2 * q
    requires pos == 0 ==> loop + 1 <= maxLoops && loop' == loop + 1 && front == before + [Banner(loop + 1, maxLoops)]
    requires pos != 0 ==> loop' == loop && front == before
    requires after == front + ItemWrites(items[read], read + 1)
    ensures after + RenderFrom(items, closed, q, maxLoops, read + 1, NextPos(pos, q), loop').writes
      == before + RenderFrom(items, closed, q, maxLoops, read, pos, loop).writes
    ensures RenderFrom(items, closed, q, maxLoops, read + 1, NextPos(pos, q), loop').ending
      == RenderFrom(items, closed, q, maxLoops, read, pos, loop).ending
  {
    var item := ItemWrites(items[read], read + 1);
    var rest := RenderFrom(items, closed, q, maxLoops, read + 1, NextPos(pos, q), loop');
    if pos == 0 {
      StepTop(items, closed, q, maxLoops, read, loop);
      ConcatAssoc(before, [Banner(loop + 1, maxLoops)], item + rest.writes);
      ConcatAssoc(front, item, rest.writes);
    } else {
      StepInside(items, closed, q, maxLoops, read, pos, loop);
      ConcatAssoc(before, item, rest.writes);
    }
  }

  // ---------------------------------------------------------------------
  // What the publisher writes over full passes
  // ---------------------------------------------------------------------

  /** The writes of consecutive question/answer items (a last odd item is not part of a pair). */
  function PairWrites(xs: seq<string>): seq<Write>
    decreases |xs|
  {
    if |xs| < 2 then [] else [Question(xs[0]), Answer(xs[1]), Separator] + PairWrites(xs[2..])
  }

  /**
   * The reference rendering from pass `loop` on, the items of pass k being
   * the 2q items from `base`: a banner and the pairs of each pass until the
   * limit, then the limit line.
   */
  function PassWrites(items: seq<string>, q: nat, maxLoops: int, loop: nat, base: nat): seq<Write>
    decreases if loop < maxLoops then maxLoops - loop else 0
  {
    if loop >= maxLoops then [Limit(maxLoops)]
    else if base + 2 * q <= |items| then
      [Banner(loop + 1, maxLoops)] + PairWrites(items[base..base + 2 * q]) + PassWrites(items, q, maxLoops, loop + 1, base + 2 * q)
    else []
  }

  /** Reading the first item of a pass below the limit: the banner, the item's writes, then the rest. */
  lemma StepTop(items: seq<string>, closed: bool, q: int, maxLoops: int, read: nat, loop: int)
    requires q > 0 && read < |items| && loop + 1 <= maxLoops
    ensures var rest := RenderFrom(items, closed, q, maxLoops, read + 1, NextPos(0, q), loop + 1);
      RenderFrom(items, closed, q, maxLoops, read, 0, loop).writes == [Banner(loop + 1, maxLoops)] + (ItemWrites(items[read], read + 1) + rest.writes)
    ensures RenderFrom(items, closed, q, maxLoops, read, 0, loop).ending == RenderFrom(items, closed, q, maxLoops, read + 1, NextPos(0, q), loop + 1).ending
  {
  }

  /** Reading an item inside a pass: its writes, then the rest. */
  lemma StepInside(items: seq<string>, closed: bool, q: int, maxLoops: int, read: nat, pos: nat, loop: int)
    requires q > 0 && read < |items| && 0 < pos < 2 * q
    ensures var rest := RenderFrom(items, closed, q, maxLoops, read + 1, NextPos(pos, q), loop);
      RenderFrom(items, closed, q, maxLoops, read, pos, loop).writes == ItemWrites(items[read], read + 1) + rest.writes
    ensures RenderFrom(items, closed, q, maxLoops, read, pos, loop).ending == RenderFrom(items, closed, q, maxLoops, read + 1, NextPos(pos, q), loop).ending
  {
  }

  /** A pair inside a pass: question, answer and separator, then the rest. */
  lemma PairInside(items: seq<string>, closed: bool, q: int, maxLoops: int, read: nat, pos: nat, loop: int)
    requires q > 0 && read + 2 <= |items| && read % 2 == 0 && 0 < pos && pos + 1 < 2 * q
    ensures var rest := RenderFrom(items, closed, q, maxLoops, read + 2, NextPos(pos + 1, q), loop);
      RenderFrom(items, closed, q, maxLoops, read, pos, loop).writes ==
      [Question(items[read]), Answer(items[read + 1]), Separator] + rest.writes
    ensures RenderFrom(items, closed, q, maxLoops, read, pos, loop).ending ==
      RenderFrom(items, closed, q, maxLoops, read + 2, NextPos(pos + 1, q), loop).ending
  {
    StepInside(items, closed, q, maxLoops, read, pos, loop);
    StepInside(items, closed, q, maxLoops, read + 1, pos + 1, loop);
  }

  /** The items of a pass are read as question/answer pairs, with no banner in between. */
  lemma {:induction false} InPass(items: seq<string>, closed: bool, q: int, maxLoops: int, read: nat, pos: nat, loop: int)
    requires q > 0 && read % 2 == 0 && pos % 2 == 0 && 0 < pos < 2 * q && read + (2 * q - pos) <= |items|
    ensures var rest := RenderFrom(items, closed, q, maxLoops, read + (2 * q - pos), 0, loop);
      RenderFrom(items, closed, q, maxLoops, read, pos, loop).writes ==
      PairWrites(items[read..read + (2 * q - pos)]) + rest.writes
    ensures RenderFrom(items, closed, q, maxLoops, read, pos, loop).ending ==
      RenderFrom(items, closed, q, maxLoops, read + (2 * q - pos), 0, loop).ending
    decreases 2 * q - pos
  {
    if pos + 2 < 2 * q {
      InPass(items, closed, q, maxLoops, read + 2, pos + 2, loop);
    } else {
      assert items[read + 2..read + 2] == [];
    }
    PairThenPass(items, closed, q, maxLoops, read, pos, loop);
  }

  /** One pair, then the rest of the pass read as pairs. */
  lemma PairThenPass(items: seq<string>, closed: bool, q: int, maxLoops: int, read: nat, pos: nat, loop: int)
    requires q > 0 && read % 2 == 0 && 0 < pos && pos + 1 < 2 * q && read + (2 * q - pos) <= |items|
    requires var end := read + (2 * q - pos);
      var rest := RenderFrom(items, closed, q, maxLoops, end, 0, loop);
      var after := RenderFrom(items, closed, q, maxLoops, read + 2, NextPos(pos + 1, q), loop);
      after.writes == PairWrites(items[read + 2..end]) + rest.writes && after.ending == rest.ending
    ensures var rest := RenderFrom(items, closed, q, maxLoops, read + (2 * q - pos), 0, loop);
      RenderFrom(items, closed, q, maxLoops, read, pos, loop).writes ==
      PairWrites(items[read..read + (2 * q - pos)]) + rest.writes
    ensures RenderFrom(items, closed, q, maxLoops, read, pos, loop).ending ==
      RenderFrom(items, closed, q, maxLoops, read + (2 * q - pos), 0, loop).ending
  {
    var end := read + (2 * q - pos);
    var rest := RenderFrom(items, closed, q, maxLoops, end, 0, loop);
    var after := RenderFrom(items, closed, q, maxLoops, read + 2, NextPos(pos + 1, q), loop);
    PairInside(items, closed, q, maxLoops, read, pos, loop);
    PairsFront(items, read, end);
    Chain(RenderFrom(items, closed, q, maxLoops, read, pos, loop).writes,
      [Question(items[read]), Answer(items[read + 1]), Separator],
      after.writes, PairWrites(items[read + 2..end]), PairWrites(items[read..end]), rest.writes);
  }

  /** A front part followed by writes that are a tail then the rest: the front and tail, then the rest. */
  lemma Chain<T>(whole: seq<T>, front: seq<T>, after: seq<T>, tail: seq<T>, joined: seq<T>, rest: seq<T>)
    requires whole == front + after && after == tail + rest && joined == front + tail
    ensures whole == joined + rest
  {
    ConcatAssoc(front, tail, rest);
  }

  /** The pairs of a slice: its first pair, then the pairs of the rest. */
  lemma PairsFront(items: seq<string>, from: nat, to: nat)
    requires from + 2 <= to <= |items|
    ensures PairWrites(items[from..to]) ==
      [Question(items[from]), Answer(items[from + 1]), Separator] + PairWrites(items[from + 2..to])
  {
    var xs := items[from..to];
    assert xs[0] == items[from] && xs[1] == items[from + 1] && xs[2..] == items[from + 2..to];
  }

  /** The first pair of a pass begun at the top of the loop: the banner, question, answer and separator. */
  lemma FirstPair(items: seq<string>, closed: bool, q: int, maxLoops: int, base: nat, loop: int)
    requires q > 0 && base % 2 == 0 && base + 2 * q <= |items| && loop + 1 <= maxLoops
    ensures var mid := RenderFrom(items, closed, q, maxLoops, base + 2, NextPos(1, q), loop + 1);
      RenderFrom(items, closed, q, maxLoops, base, 0, loop).writes ==
      [Banner(loop + 1, maxLoops)] + ([Question(items[base]), Answer(items[base + 1]), Separator] + mid.writes)
    ensures RenderFrom(items, closed, q, maxLoops, base, 0, loop).ending ==
      RenderFrom(items, closed, q, maxLoops, base + 2, NextPos(1, q), loop + 1).ending
  {
    StepTop(items, closed, q, maxLoops, base, loop);
    StepInside(items, closed, q, maxLoops, base + 1, 1, loop + 1);
  }

  /** A pass begun at the top of the loop: a banner, then its pairs. */
  lemma PassStart(items: seq<string>, closed: bool, q: int, maxLoops: int, base: nat, loop: int)
    requires q > 0 && base % 2 == 0 && base + 2 * q <= |items| && loop + 1 <= maxLoops
    ensures var rest := RenderFrom(items, closed, q, maxLoops, base + 2 * q, 0, loop + 1);
      RenderFrom(items, closed, q, maxLoops, base, 0, loop).writes ==
      [Banner(loop + 1, maxLoops)] + PairWrites(items[base..base + 2 * q]) + rest.writes
    ensures RenderFrom(items, closed, q, maxLoops, base, 0, loop).ending ==
      RenderFrom(items, closed, q, maxLoops, base + 2 * q, 0, loop + 1).ending
  {
    if q > 1 {
      InPass(items, closed, q, maxLoops, base + 2, 2, loop + 1);
    } else {
      assert items[base + 2..base + 2] == [];
    }
    BannerThenPairs(items, closed, q, maxLoops, base, loop);
  }

  /** The banner and first pair, then the rest of the pass read as pairs. */
  lemma BannerThenPairs(items: seq<string>, closed: bool, q: int, maxLoops: int, base: nat, loop: int)
    requires q > 0 && base % 2 == 0 && base + 2 * q <= |items| && loop + 1 <= maxLoops
    requires var rest := RenderFrom(items, closed, q, maxLoops, base + 2 * q, 0, loop + 1);
      var mid := RenderFrom(items, closed, q, maxLoops, base + 2, NextPos(1, q), loop + 1);
      mid.writes == PairWrites(items[base + 2..base + 2 * q]) + rest.writes && mid.ending == rest.ending
    ensures var rest := RenderFrom(items, closed, q, maxLoops, base + 2 * q, 0, loop + 1);
      RenderFrom(items, closed, q, maxLoops, base, 0, loop).writes ==
      [Banner(loop + 1, maxLoops)] + PairWrites(items[base..base + 2 * q]) + rest.writes
    ensures RenderFrom(items, closed, q, maxLoops, base, 0, loop).ending ==
      RenderFrom(items, closed, q, maxLoops, base + 2 * q, 0, loop + 1).ending
  {
    var rest := RenderFrom(items, closed, q, maxLoops, base + 2 * q, 0, loop + 1);
    var pairs := [Question(items[base]), Answer(items[base + 1]), Separator];
    FirstPair(items, closed, q, maxLoops, base, loop);
    var xs := items[base..base + 2 * q];
    assert xs[0] == items[base] && xs[1] == items[base + 1] && xs[2..] == items[base + 2..base + 2 * q];
    Assemble(Banner(loop + 1, maxLoops), pairs, PairWrites(xs[2..]), rest.writes);
  }

  /** Regrouping the writes of a pass's first pair. */
  lemma Assemble(b: Write, first: seq<Write>, pw: seq<Write>, rest: seq<Write>)
    ensures [b] + (first + (pw + rest)) == [b] + (first + pw) + rest
  {
  }

  /** The first five writes once two items have arrived: the header, the first banner, the first question and its answer. */
  lemma RenderOpening(items: seq<string>, closed: bool, q: int, maxLoops: int)
    requires q > 0 && maxLoops > 0 && |items| >= 2
    ensures var w := Render(items, closed, q, maxLoops).writes;
      |w| >= 5 && w[..5] == [Header(q), Banner(1, maxLoops), Question(items[0]), Answer(items[1]), Separator]
  {
    var rest := RenderFrom(items, closed, q, maxLoops, 2, NextPos(1, q), 1);
    StepTop(items, closed, q, maxLoops, 0, 0);
    StepInside(items, closed, q, maxLoops, 1, 1, 1);
    Opening(Header(q), Banner(1, maxLoops), Question(items[0]), Answer(items[1]), Separator, rest.writes);
  }

  /** Regrouping the opening writes. */
  lemma Opening(h: Write, b: Write, qw: Write, aw: Write, sep: Write, rest: seq<Write>)
    ensures var w := [h] + ([b] + ([qw] + ([aw, sep] + rest)));
      |w| >= 5 && w[..5] == [h, b, qw, aw, sep]
  {
    var w := [h] + ([b] + ([qw] + ([aw, sep] + rest)));
    assert w == [h, b, qw, aw, sep] + rest;
  }

  /** The items from `base` fill every pass from `loop` to the limit. */
  predicate Enough(items: seq<string>, q: int, maxLoops: int, loop: nat, base: nat)
    decreases if loop < maxLoops then maxLoops - loop else 0
  {
    loop >= maxLoops || (q > 0 && base + 2 * q <= |items| && Enough(items, q, maxLoops, loop + 1, base + 2 * q))
  }

  /** 2·q items per pass left suffice. */
  lemma {:induction false} EnoughItems(items: seq<string>, q: int, maxLoops: int, loop: nat, base: nat)
    requires q > 0 && loop <= (if maxLoops <= 0 then 0 else maxLoops)
    requires base + 2 * q * ((if maxLoops <= 0 then 0 else maxLoops) - loop) <= |items|
    ensures Enough(items, q, maxLoops, loop, base)
    decreases if loop < maxLoops then maxLoops - loop else 0
  {
    if loop < maxLoops {
      var left := maxLoops - loop;
      assert 2 * q * left == 2 * q * (left - 1) + 2 * q;
      MulNonNeg(2 * q, left - 1);
      EnoughItems(items, q, maxLoops, loop + 1, base + 2 * q);
    }
  }

  /**
   * With enough items for every pass, the publisher writes, from pass
   * `loop` on, exactly the reference rendering and stops at the limit.
   */
  lemma {:induction false} FullPasses(items: seq<string>, closed: bool, q: int, maxLoops: int, loop: nat, base: nat)
    requires q > 0 && base <= |items| && base % 2 == 0 && Enough(items, q, maxLoops, loop, base)
    ensures RenderFrom(items, closed, q, maxLoops, base, 0, loop).writes == PassWrites(items, q, maxLoops, loop, base)
    ensures RenderFrom(items, closed, q, maxLoops, base, 0, loop).ending == LimitReached
    decreases if loop < maxLoops then maxLoops - loop else 0
  {
    if loop < maxLoops {
      FullPasses(items, closed, q, maxLoops, loop + 1, base + 2 * q);
      PassThenRest(items, closed, q, maxLoops, loop, base);
    }
  }

  /** One full pass, then the passes after it. */
  lemma PassThenRest(items: seq<string>, closed: bool, q: int, maxLoops: int, loop: nat, base: nat)
    requires q > 0 && base % 2 == 0 && base + 2 * q <= |items| && loop < maxLoops
    requires RenderFrom(items, closed, q, maxLoops, base + 2 * q, 0, loop + 1).writes == PassWrites(items, q, maxLoops, loop + 1, base + 2 * q)
    requires RenderFrom(items, closed, q, maxLoops, base + 2 * q, 0, loop + 1).ending == LimitReached
    ensures RenderFrom(items, closed, q, maxLoops, base, 0, loop).writes == PassWrites(items, q, maxLoops, loop, base)
    ensures RenderFrom(items, closed, q, maxLoops, base, 0, loop).ending == LimitReached
  {
    PassStart(items, closed, q, maxLoops, base, loop);
  }

  /**
   * The whole rendering when the channel brings at least 2·q·L items: the
   * header, L passes of a banner and q pairs each, then the limit line.
   */
  lemma RenderComplete(items: seq<string>, closed: bool, q: int, maxLoops: int)
    requires q > 0 && 2 * q * (if maxLoops <= 0 then 0 else maxLoops) <= |items|
    ensures Render(items, closed, q, maxLoops) == Rendering([Header(q)] + PassWrites(items, q, maxLoops, 0, 0), LimitReached)
  {
    EnoughItems(items, q, maxLoops, 0, 0);
    FullPasses(items, closed, q, maxLoops, 0, 0);
  }

  /**
   * Fewer items are left than the limit needs: those of the current pass
   * (none at its top) plus 2·q for each pass still allowed.
   */
  lemma {:induction false} ShortRun(items: seq<string>, closed: bool, q: int, maxLoops: int, read: nat, pos: nat, loop: int)
    requires q > 0 && read <= |items| && pos < 2 * q && loop <= maxLoops
    requires |items| - read < (if pos == 0 then 0 else 2 * q - pos) + 2 * q * (maxLoops - loop)
    ensures RenderFrom(items, closed, q, maxLoops, read, pos, loop).ending != LimitReached
    ensures forall w :: w in RenderFrom(items, closed, q, maxLoops, read, pos, loop).writes ==> !w.Limit?
    decreases |items| - read
  {
    if pos == 0 && loop == maxLoops {
      assert false;
    }
    if read < |items| {
      var loop' := if pos == 0 then loop + 1 else loop;
      assert 2 * q * (maxLoops - loop) == 2 * q * (maxLoops - loop') + (if pos == 0 then 2 * q else 0);
      ShortRun(items, closed, q, maxLoops, read + 1, NextPos(pos, q), loop');
      if pos == 0 {
        StepTop(items, closed, q, maxLoops, read, loop);
      } else {
        StepInside(items, closed, q, maxLoops, read, pos, loop);
      }
    }
  }

  /** The whole rendering with fewer than 2·q·L items: no limit line, and no end but the channel's. */
  lemma RenderShort(items: seq<string>, closed: bool, q: int, maxLoops: int)
    requires q > 0 && |items| < 2 * q * (if maxLoops <= 0 then 0 else maxLoops)
    ensures Render(items, closed, q, maxLoops).ending == if closed then ChannelClosed else Waiting
    ensures forall w :: w in Render(items, closed, q, maxLoops).writes ==> !w.Limit?
  {
    ShortRun(items, closed, q, maxLoops, 0, 0, 0);
    EndsOnChannel(items, closed, q, maxLoops, 0, 0, 0);
  }

  /** A rendering that does not reach the limit ends the way the channel does. */
  lemma {:induction false} EndsOnChannel(items: seq<string>, closed: bool, q: int, maxLoops: int, read: nat, pos: nat, loop: int)
    requires q > 0 && read <= |items| && pos < 2 * q
    ensures RenderFrom(items, closed, q, maxLoops, read, pos, loop).ending == LimitReached ||
      RenderFrom(items, closed, q, maxLoops, read, pos, loop).ending == if closed then ChannelClosed else Waiting
    decreases |items| - read
  {
    if read < |items| {
      EndsOnChannel(items, closed, q, maxLoops, read + 1, NextPos(pos, q), if pos == 0 then loop + 1 else loop);
    }
  }
}
