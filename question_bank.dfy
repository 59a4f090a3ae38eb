/**
 * The question bank: two parallel lists where answers[i] answers
 * questions[i]. Go copies the struct by value (maps store copies), and
 * grows it in place through pointer receivers (AddEntry, Concatenate).
 *
 * The datatype `QA` is the value; the class `QuestionsAnswers` is an
 * addressable variable of that type whose methods update it in place.
 *
 * The copies of this type in the repository differ only in `NewQA`: the
 * current datamodel package returns empty, non-nil slices, the older copies
 * return the zero value, whose slices are nil. Go tells the two apart
 * (`qa.questions == nil`), so the model keeps a flag for it.
 */
module QuestionBank {

  /** Which copy of the code: the current packages, or the older ones whose NewQA is the zero value. */
  datatype Variant = Current | Legacy

  /** A question bank value; `nilQuestions` records that the questions slice is Go's nil. */
  datatype QA = QA(questions: seq<string>, answers: seq<string>, nilQuestions: bool)
  {
    /** Every question has its answer, and a nil slice is empty. */
    predicate Valid() {
      |questions| == |answers| && (nilQuestions ==> questions == [])
    }

    /** GetCount: nil-aware in the older copies, len(questions) in the current one; the two agree. */
    function GetCount(): (n: nat)
      ensures Valid() ==> n == |questions|
      ensures nilQuestions ==> n == 0
    {
      if nilQuestions then 0 else |questions|
    }

    /** GetQuestion(i); Go panics outside the range, so the range is required. */
    function GetQuestion(i: int): string
      requires 0 <= i < |questions|
    {
      questions[i]
    }

    /** GetAnswer(i); Go panics outside the range, so the range is required. */
    function GetAnswer(i: int): string
      requires 0 <= i < |answers|
    {
      answers[i]
    }

    /** The bank after AddEntry(q, a). */
    function WithEntry(q: string, a: string): (r: QA)
      ensures Valid() ==> r.Valid() && r.GetCount() == GetCount() + 1
      ensures |r.questions| == |questions| + 1 && r.GetQuestion(|questions|) == q
      ensures |r.answers| == |answers| + 1 && r.GetAnswer(|answers|) == a
      ensures r.questions[..|questions|] == questions && r.answers[..|answers|] == answers
      ensures !r.nilQuestions
    {
      QA(questions + [q], answers + [a], false)
    }

    /** The bank after Concatenate(xs...): the non-empty banks of `xs` appended in order. */
    function Concat(xs: seq<QA>): (r: QA)
      ensures Valid() && AllValid(xs) ==> r.Valid()
      ensures |questions| <= |r.questions| && r.questions[..|questions|] == questions
      ensures |answers| <= |r.answers| && r.answers[..|answers|] == answers
      decreases |xs|
    {
      if xs == [] then this
      else
        var p := Concat(xs[..|xs| - 1]);
        var x := xs[|xs| - 1];
        if x.GetCount() > 0 then QA(p.questions + x.questions, p.answers + x.answers, false)
        else p
    }
  }

  predicate AllValid(xs: seq<QA>) {
    forall k :: 0 <= k < |xs| ==> xs[k].Valid()
  }

  /** NewQA of the chosen copy: an empty bank, nil in the older copies. */
  function NewQA(v: Variant): (r: QA)
    ensures r.Valid() && r.GetCount() == 0 && r.questions == [] && r.answers == []
    ensures r.nilQuestions <==> v == Legacy
  {
    QA([], [], v == Legacy)
  }

  /** The sum of the counts of `xs`. */
  function SumCounts(xs: seq<QA>): nat
  {
    if xs == [] then 0 else SumCounts(xs[..|xs| - 1]) + xs[|xs| - 1].GetCount()
  }

  /** Concatenate grows the count by the sum of the argument counts. */
  lemma {:induction false} ConcatCount(qa: QA, xs: seq<QA>)
    requires qa.Valid() && AllValid(xs)
    ensures qa.Concat(xs).GetCount() == qa.GetCount() + SumCounts(xs)
    decreases |xs|
  {
    if xs != [] {
      ConcatCount(qa, xs[..|xs| - 1]);
    }
  }

  /** Concatenate with no argument, or with only empty banks, changes nothing. */
  lemma {:induction false} ConcatEmptyBanks(qa: QA, xs: seq<QA>)
    requires forall k :: 0 <= k < |xs| ==> xs[k].GetCount() == 0
    ensures qa.Concat(xs) == qa
    decreases |xs|
  {
    if xs != [] {
      ConcatEmptyBanks(qa, xs[..|xs| - 1]);
    }
  }

  /** Concatenating one non-empty bank appends its pairs after the existing ones. */
  lemma ConcatOne(qa: QA, x: QA)
    requires x.GetCount() > 0
    ensures qa.Concat([x]).questions == qa.questions + x.questions
    ensures qa.Concat([x]).answers == qa.answers + x.answers
  {
    assert [x][..0] == [];
  }

  /** Concatenate processes its arguments left to right: the arguments may be split anywhere. */
  lemma {:induction false} ConcatSplit(qa: QA, xs: seq<QA>, ys: seq<QA>)
    ensures qa.Concat(xs + ys) == qa.Concat(xs).Concat(ys)
    decreases |ys|
  {
    if ys == [] {
      assert xs + ys == xs;
    } else {
      assert (xs + ys)[..|xs + ys| - 1] == xs + ys[..|ys| - 1];
      ConcatSplit(qa, xs, ys[..|ys| - 1]);
    }
  }

  /** The operations a caller applies to a bank. */
  datatype Op = AddEntry(q: string, a: string) | Concatenate(xs: seq<QA>)

  function Apply(qa: QA, ops: seq<Op>): QA
    decreases |ops|
  {
    if ops == [] then qa
    else
      var p := Apply(qa, ops[..|ops| - 1]);
      match ops[|ops| - 1]
      case AddEntry(q, a) => p.WithEntry(q, a)
      case Concatenate(xs) => p.Concat(xs)
  }

  /**
   * The two NewQA copies cannot be told apart by their contents: after the
   * same operations they hold the same pairs and report the same count.
   */
  lemma {:induction false} VariantsAgree(ops: seq<Op>)
    ensures Apply(NewQA(Current), ops).questions == Apply(NewQA(Legacy), ops).questions
    ensures Apply(NewQA(Current), ops).answers == Apply(NewQA(Legacy), ops).answers
    ensures Apply(NewQA(Current), ops).GetCount() == Apply(NewQA(Legacy), ops).GetCount()
    decreases |ops|
  {
    if ops != [] {
      var init := ops[..|ops| - 1];
      VariantsAgree(init);
      match ops[|ops| - 1]
      case AddEntry(q, a) =>
      case Concatenate(xs) =>
        ConcatAgree(Apply(NewQA(Current), init), Apply(NewQA(Legacy), init), xs);
    }
  }

  /** Concatenating onto two banks with the same pairs gives banks with the same pairs and count. */
  lemma {:induction false} ConcatAgree(a: QA, b: QA, xs: seq<QA>)
    requires a.questions == b.questions && a.answers == b.answers && a.GetCount() == b.GetCount()
    ensures a.Concat(xs).questions == b.Concat(xs).questions
    ensures a.Concat(xs).answers == b.Concat(xs).answers
    ensures a.Concat(xs).GetCount() == b.Concat(xs).GetCount()
    decreases |xs|
  {
    if xs != [] {
      ConcatAgree(a, b, xs[..|xs| - 1]);
    }
  }

  /** AddEntry onto a fresh bank, then Concatenate of a one-pair and a two-pair bank, counts 1 + 2. */
  lemma ConcatenateExample(v: Variant, q1: string, a1: string, q2: string, a2: string, q3: string, a3: string)
    ensures NewQA(v).WithEntry(q1, a1).Concat([NewQA(v).WithEntry(q2, a2).WithEntry(q3, a3)]).GetCount() == 3
  {
    var one := NewQA(v).WithEntry(q1, a1);
    var two := NewQA(v).WithEntry(q2, a2).WithEntry(q3, a3);
    ConcatCount(one, [two]);
    assert [two][..0] == [];
  }

  /** An addressable bank variable: the receiver of the pointer methods. */
  class QuestionsAnswers {
    var questions: seq<string>
    var answers: seq<string>
    var nilQuestions: bool

    function Value(): QA
      reads this
    {
      QA(questions, answers, nilQuestions)
    }

    /** `qa := NewQA()` in the chosen copy. */
    constructor (v: Variant)
      ensures Value() == NewQA(v)
    {
      questions, answers, nilQuestions := [], [], v == Legacy;
    }

    /** AddEntry: one more pair at the end. */
    method AddEntry(q: string, a: string)
      modifies this
      ensures Value() == old(Value()).WithEntry(q, a)
    {
      questions := questions + [q];
      answers := answers + [a];
      nilQuestions := false;
    }

    /** Concatenate: appends the pairs of every non-empty argument, in argument order. */
    method Concatenate(qaToAdd: seq<QA>)
      modifies this
      ensures Value() == old(Value()).Concat(qaToAdd)
    {
      ghost var start := Value();
      var i := 0;
      while i < |qaToAdd|
        invariant 0 <= i <= |qaToAdd|
        invariant Value() == start.Concat(qaToAdd[..i])
      {
        var toAdd := qaToAdd[i];
        var count := toAdd.GetCount();
        assert qaToAdd[..i + 1][..i] == qaToAdd[..i];
        if count > 0 {
          questions := questions + toAdd.questions;
          answers := answers + toAdd.answers;
          nilQuestions := false;
        }
        i := i + 1;
      }
      assert qaToAdd[..i] == qaToAdd;
    }
  }
}
