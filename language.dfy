/**
 * The lessons of a language resource (`datamodel/language.go`): a list of
 * lessons, each with an integer ID, to which new empty lessons are added
 * under a fresh ID one greater than the largest in use.
 */
module Language {

  /** A text in the language learnt and its translation. */
  datatype Resource = Resource(learning: string, native: string)

  /** A lesson: its ID, title, vocabulary and sentences. */
  datatype Lesson = Lesson(id: int, title: Resource, vocabulary: seq<Resource>, sentences: seq<Resource>)

  /** NewLesson: the given ID, every other field empty. */
  function NewLesson(id: int): (l: Lesson)
    ensures l.id == id && l.title == Resource("", "") && l.vocabulary == [] && l.sentences == []
  {
    Lesson(id, Resource("", ""), [], [])
  }

  /** The largest ID of `lessons`, or 0 when there is none larger: the running maximum starts at 0. */
  function MaxId(lessons: seq<Lesson>): (m: int)
    ensures m >= 0
    ensures forall k :: 0 <= k < |lessons| ==> lessons[k].id <= m
  {
    if lessons == [] then 0
    else
      var m := MaxId(lessons[..|lessons| - 1]);
      var last := lessons[|lessons| - 1];
      if last.id > m then last.id else m
  }

  /** The maximum is 0 or the ID of some lesson: it is the largest ID when that is positive. */
  lemma {:induction false} MaxIdAttained(lessons: seq<Lesson>)
    ensures MaxId(lessons) == 0 || exists k :: 0 <= k < |lessons| && lessons[k].id == MaxId(lessons)
  {
    if lessons != [] {
      var init := lessons[..|lessons| - 1];
      MaxIdAttained(init);
      if MaxId(lessons) != lessons[|lessons| - 1].id && MaxId(init) != 0 {
        var k :| 0 <= k < |init| && init[k].id == MaxId(init);
        assert lessons[k] == init[k];
      }
    }
  }

  /** The ID getIDForNewLesson gives: one more than the largest in use, and 1 for no lesson. */
  function NextId(lessons: seq<Lesson>): (id: int)
    ensures id >= 1 && (lessons == [] ==> id == 1)
    ensures forall k :: 0 <= k < |lessons| ==> lessons[k].id < id
  {
    MaxId(lessons) + 1
  }

  /** No two lessons share an ID. */
  predicate DistinctIds(lessons: seq<Lesson>) {
    forall j, k :: 0 <= j < k < |lessons| ==> lessons[j].id != lessons[k].id
  }

  /**
   * Adding a lesson under the next ID keeps IDs distinct, and the next ID
   * after it is one more: successive creations return strictly increasing,
   * hence pairwise distinct, IDs.
   */
  lemma AppendNext(lessons: seq<Lesson>)
    requires DistinctIds(lessons)
    ensures DistinctIds(lessons + [NewLesson(NextId(lessons))])
    ensures NextId(lessons + [NewLesson(NextId(lessons))]) == NextId(lessons) + 1
  {
    NextIdAppend(lessons);
  }

  /** The next ID after adding a lesson under the next ID is one more. */
  lemma NextIdAppend(lessons: seq<Lesson>)
    ensures NextId(lessons + [NewLesson(NextId(lessons))]) == NextId(lessons) + 1
  {
    var l := lessons + [NewLesson(NextId(lessons))];
    assert l[..|l| - 1] == lessons;
  }

  /** LanguageResources: the lessons, a Go slice grown in place through a pointer receiver. */
  class LanguageResources {
    var lessons: seq<Lesson>

    /** NewLanguageResources: no lesson. */
    constructor ()
      ensures lessons == []
    {
      lessons := [];
    }

    /** GetLessonsCount: the number of lessons. */
    function GetLessonsCount(): (n: nat)
      reads this
      ensures n == |lessons|
    {
      |lessons|
    }

    /** getIDForNewLesson: a running maximum from 0 over the IDs, plus one. */
    method GetIDForNewLesson() returns (id: int)
      ensures id == NextId(lessons)
      ensures forall k :: 0 <= k < |lessons| ==> lessons[k].id < id
      ensures lessons == [] ==> id == 1
    {
      id := 0;
      if |lessons| > 0 {
        for i := 0 to |lessons|
          invariant id == MaxId(lessons[..i])
        {
          assert lessons[..i + 1][..i] == lessons[..i];
          if lessons[i].id > id {
            id := lessons[i].id;
          }
        }
        assert lessons[..|lessons|] == lessons;
      }
      id := id + 1;
    }

    /** CreateNewLesson: appends one empty lesson under a fresh ID and returns that ID. */
    method CreateNewLesson() returns (id: int)
      modifies this
      ensures lessons == old(lessons) + [NewLesson(id)]
      ensures id == NextId(old(lessons))
      ensures forall k :: 0 <= k < |old(lessons)| ==> old(lessons)[k].id < id
      ensures GetLessonsCount() == old(GetLessonsCount()) + 1
    {
      id := GetIDForNewLesson();
      var l := NewLesson(id);
      lessons := lessons + [l];
    }
  }
}
