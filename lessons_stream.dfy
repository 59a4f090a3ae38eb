/**
 * ParseTopic of `parsing/lessons-stream.go`: a lesson file, given as its
 * lines, becomes a topic with the two language names of its header and
 * two families of subsections, vocabulary and sentences, each a map from
 * subsection id to question bank, with a counter of the entries stored in
 * each family.
 *
 * The parser calls Topic methods (GetVocabularySubsection,
 * SetVocabularySubsection, IncreaseVocabularyCount and their sentence
 * twins) that the Topic of `datamodel/topic.go` does not have; the file
 * that defines them is not part of this model. They are modelled on
 * topic.go's GetSubsection and SetSubsection: get-or-create lookup and
 * overwriting store, one map per family.
 */
module LessonsStream {
  import opened Wrappers
  import opened Strings
  import opened QuestionBank
  import opened Topics

  /** TopicParsingParameters: the two section announces and the question/answer separator. */
  datatype ParsingParameters = ParsingParameters(lessonAnnounce: string, sentenceAnnounce: string, qaSep: string)

  /** The topic of a lesson file: language names, the two families of subsections and their entry counters. */
  datatype LessonTopic = LessonTopic(
    nativeLanguage: string, learnedLanguage: string,
    vocabulary: map<string, QA>, sentences: map<string, QA>,
    vocabularyCount: nat, sentencesCount: nat)

  /** NewTopic: no name, no subsection, nothing counted. */
  function NewLessonTopic(): (t: LessonTopic)
    ensures t.vocabulary == map[] && t.sentences == map[]
    ensures t.vocabularyCount == 0 && t.sentencesCount == 0
  {
    LessonTopic("", "", map[], map[], 0, 0)
  }

  /** What ParseTopic returns: the topic, or one of its two errors. */
  datatype Outcome = Parsed(topic: LessonTopic) | MissingParameter | BadHeader(header: string)

  /** The section being read, as the loop's two flags say (vocabulary wins if both were set). */
  datatype Section = NoSection | Vocabulary | Sentences

  /** The state of the loop after the header: the topic, the current subsection id and bank, and the section. */
  datatype Reading = Reading(topic: LessonTopic, id: string, current: QA, section: Section)

  /** A non-empty line splits into at least one piece. */
  lemma SplitLine(line: string, sep: string)
    requires line != []
    ensures |Split(line, sep)| >= 1
  {
    if sep != [] {
      SplitNonEmpty(line, sep);
    }
  }

  /**
   * A line holding the separator, read as an entry: the question is what
   * precedes the first separator, the answer everything after it, and the
   * two with the separator between them give back the line.
   */
  function Entry(line: string, sep: string): (e: (string, string))
    requires |Split(line, sep)| >= 2
    ensures e.0 + sep + e.1 == line
    ensures sep != [] ==> !Contains(e.0, sep)
  {
    var parts := Split(line, sep);
    SplitFirst(line, sep);
    if sep == [] then (parts[0], Join(parts[1..], sep))
    else
      SplitPiecesFree(line, sep, 0);
      (parts[0], Join(parts[1..], sep))
  }

  /** The header "#native SEP learnt": the two names, space-trimmed, when the separator cuts it in exactly two. */
  function Header(line: string, sep: string): Option<(string, string)>
  {
    var parts := Split(TrimPrefix(line, "#"), sep);
    if |parts| != 2 then None else Some((TrimSpaces(parts[0]), TrimSpaces(parts[1])))
  }

  /** The state once the header has given the two names. */
  function Start(names: (string, string)): (st: Reading)
    ensures st.topic.nativeLanguage == names.0 && st.topic.learnedLanguage == names.1
    ensures st.section == NoSection && st.current.Valid() && st.current.GetCount() == 0
  {
    Reading(NewLessonTopic().(nativeLanguage := names.0, learnedLanguage := names.1), "", NewQA(Current), NoSection)
  }

  /** One line after the header. */
  function Step(st: Reading, line: string, p: ParsingParameters): Reading
  {
    if |line| == 0 then st
    else
      SplitLine(line, p.qaSep);
      if |Split(line, p.qaSep)| == 1 then
        if HasPrefix(line, p.lessonAnnounce) then
          var id := TrimPrefix(line, p.lessonAnnounce);
          var (qa, m) := GetOrCreate(st.topic.vocabulary, id, Current);
          Reading(st.topic.(vocabulary := m), id, qa, Vocabulary)
        else if HasPrefix(line, p.sentenceAnnounce) then
          var id := TrimPrefix(line, p.sentenceAnnounce);
          var (qa, m) := GetOrCreate(st.topic.sentences, id, Current);
          Reading(st.topic.(sentences := m), id, qa, Sentences)
        else st
      else
        var (q, a) := Entry(line, p.qaSep);
        var qa := st.current.WithEntry(q, a);
        match st.section
        case Vocabulary =>
          Reading(st.topic.(vocabulary := st.topic.vocabulary[st.id := qa],
                            vocabularyCount := st.topic.vocabularyCount + 1), st.id, qa, Vocabulary)
        case Sentences =>
          Reading(st.topic.(sentences := st.topic.sentences[st.id := qa],
                            sentencesCount := st.topic.sentencesCount + 1), st.id, qa, Sentences)
        case NoSection => st.(current := qa)
  }

  /** The lines after the header, one after the other. */
  function Lines(st: Reading, lines: seq<string>, p: ParsingParameters): Reading
  {
    if lines == [] then st else Step(Lines(st, lines[..|lines| - 1], p), lines[|lines| - 1], p)
  }

  /** The three parameters must be non-empty. */
  predicate ParametersSet(p: ParsingParameters) {
    p.lessonAnnounce != [] && p.qaSep != [] && p.sentenceAnnounce != []
  }

  /** ParseTopic over the lines of the file. */
  function Parse(lines: seq<string>, p: ParsingParameters): Outcome
  {
    if !ParametersSet(p) then MissingParameter
    else if lines == [] then Parsed(NewLessonTopic())
    else match Header(lines[0], p.qaSep)
      case None => BadHeader(lines[0])
      case Some(names) => Parsed(Lines(Start(names), lines[1..], p).topic)
  }

  /**
   * The two errors: a missing parameter is reported before anything is
   * read, and a first line that is not a header is reported with that
   * line; no line at all gives the empty topic.
   */
  lemma ParseErrors(lines: seq<string>, p: ParsingParameters)
    ensures Parse(lines, p) == MissingParameter <==> !ParametersSet(p)
    ensures ParametersSet(p) && lines == [] ==> Parse(lines, p) == Parsed(NewLessonTopic())
    ensures ParametersSet(p) && lines != [] ==>
      (Parse(lines, p) == BadHeader(lines[0]) <==> Header(lines[0], p.qaSep) == None)
  {
  }

  /** The flags of the loop as a section. */
  function SectionOf(isVocabularySection: bool, isSentencesSection: bool): Section {
    if isVocabularySection then Vocabulary else if isSentencesSection then Sentences else NoSection
  }

  /** ParseTopic: the loop over the lines, the first one being the header. */
  method ParseTopic(lines: seq<string>, p: ParsingParameters) returns (r: Outcome)
    ensures r == Parse(lines, p)
  {
    if p.lessonAnnounce == [] || p.qaSep == [] || p.sentenceAnnounce == [] {
      return MissingParameter;
    }
    var topic := NewLessonTopic();
    var subsectionID: string := "";
    var qaSubsection := NewQA(Current);
    var isVocabularySection, isSentencesSection := false, false;
    for i := 0 to |lines|
      invariant i == 0 ==> topic == NewLessonTopic() && subsectionID == "" && qaSubsection == NewQA(Current)
      invariant i == 0 ==> !isVocabularySection && !isSentencesSection
      invariant i > 0 ==> Header(lines[0], p.qaSep).Some?
      invariant i > 0 ==>
        (Reading(topic, subsectionID, qaSubsection, SectionOf(isVocabularySection, isSentencesSection))
         == Lines(Start(Header(lines[0], p.qaSep).value), lines[1..i], p))
    {
      var input := lines[i];
      if i == 0 {
        var langs := TrimPrefix(input, "#");
        var splitted := Split(langs, p.qaSep);
        if |splitted| != 2 {
          return BadHeader(input);
        }
        topic := topic.(nativeLanguage := TrimSpaces(splitted[0]), learnedLanguage := TrimSpaces(splitted[1]));
        assert lines[1..1] == [];
        continue;
      }
      topic, subsectionID, qaSubsection, isVocabularySection, isSentencesSection :=
        ReadLine(topic, subsectionID, qaSubsection, isVocabularySection, isSentencesSection, input, p);
      SliceSnoc(lines, 1, i);
    }
    if |lines| == 0 {
      return Parsed(topic);
    }
    assert lines[1..|lines|] == lines[1..];
    return Parsed(topic);
  }

  /** The body of ParseTopic's loop for a line after the header: one Step on the loop's variables. */
  method ReadLine(topic: LessonTopic, subsectionID: string, qaSubsection: QA, isVocabularySection: bool,
                  isSentencesSection: bool, input: string, p: ParsingParameters)
    returns (topic': LessonTopic, subsectionID': string, qaSubsection': QA, isVocabularySection': bool,
             isSentencesSection': bool)
    ensures Reading(topic', subsectionID', qaSubsection', SectionOf(isVocabularySection', isSentencesSection'))
         == Step(Reading(topic, subsectionID, qaSubsection, SectionOf(isVocabularySection, isSentencesSection)), input, p)
  {
    topic', subsectionID', qaSubsection' := topic, subsectionID, qaSubsection;
    isVocabularySection', isSentencesSection' := isVocabularySection, isSentencesSection;
    if |input| > 0 {
      var split := Split(input, p.qaSep);
      SplitLine(input, p.qaSep);
      if |split| == 1 {
        if HasPrefix(input, p.lessonAnnounce) {
          subsectionID' := TrimPrefix(input, p.lessonAnnounce);
          qaSubsection', topic' := GetVocabularySubsection(topic, subsectionID');
          isVocabularySection', isSentencesSection' := true, false;
        } else if HasPrefix(input, p.sentenceAnnounce) {
          subsectionID' := TrimPrefix(input, p.sentenceAnnounce);
          qaSubsection', topic' := GetSentencesSubsection(topic, subsectionID');
          isVocabularySection', isSentencesSection' := false, true;
        }
      } else {
        qaSubsection' := qaSubsection.WithEntry(split[0], Join(split[1..], p.qaSep));
        if isVocabularySection {
          topic' := topic.(vocabulary := topic.vocabulary[subsectionID := qaSubsection']);
          topic' := topic'.(vocabularyCount := topic'.vocabularyCount + 1);
        } else if isSentencesSection {
          topic' := topic.(sentences := topic.sentences[subsectionID := qaSubsection']);
          topic' := topic'.(sentencesCount := topic'.sentencesCount + 1);
        }
      }
    }
  }

  /** GetVocabularySubsection: get-or-create in the vocabulary family. */
  method GetVocabularySubsection(topic: LessonTopic, id: string) returns (qa: QA, t: LessonTopic)
    ensures (qa, t.vocabulary) == GetOrCreate(topic.vocabulary, id, Current)
    ensures t == topic.(vocabulary := t.vocabulary)
  {
    qa := Fetch(topic.vocabulary, id);
    t := topic;
    if qa.nilQuestions {
      qa := NewQA(Current);
      t := topic.(vocabulary := topic.vocabulary[id := qa]);
    }
  }

  /** GetSentencesSubsection: get-or-create in the sentences family. */
  method GetSentencesSubsection(topic: LessonTopic, id: string) returns (qa: QA, t: LessonTopic)
    ensures (qa, t.sentences) == GetOrCreate(topic.sentences, id, Current)
    ensures t == topic.(sentences := t.sentences)
  {
    qa := Fetch(topic.sentences, id);
    t := topic;
    if qa.nilQuestions {
      qa := NewQA(Current);
      t := topic.(sentences := topic.sentences[id := qa]);
    }
  }

  /** A header written as "#" + native + c + learnt, with no c inside the names, gives back the two names, trimmed. */
  lemma HeaderRoundTrip(native: string, learnt: string, c: char)
    requires Free(native, c) && Free(learnt, c)
    ensures Header("#" + native + [c] + learnt, [c]) == Some((TrimSpaces(native), TrimSpaces(learnt)))
  {
    var line := "#" + native + [c] + learnt;
    assert line == "#" + (native + [c] + learnt);
    assert TrimPrefix(line, "#") == native + [c] + learnt;
    SplitAppendFree(native, c, learnt);
    SplitFree(learnt, c);
  }

  /** An empty first line is not a header: the file is rejected. */
  lemma EmptyHeaderRejected(lines: seq<string>, p: ParsingParameters)
    requires ParametersSet(p) && lines != [] && lines[0] == ""
    ensures Parse(lines, p) == BadHeader("")
  {
    SplitSingleton("", p.qaSep);
  }

  /** The entry line q + sep + a, with no sep inside q, adds the entry (q, a). */
  lemma EntryOfLine(q: string, a: string, c: char)
    requires Free(q, c)
    ensures |Split(q + [c] + a, [c])| >= 2
    ensures Entry(q + [c] + a, [c]) == (q, a)
  {
    SplitAppendFree(q, c, a);
    SplitNonEmpty(a, [c]);
    SplitJoin(a, [c]);
    assert Split(q + [c] + a, [c])[1..] == Split(a, [c]);
  }

  /**
   * An entry line is added to the current bank; within a section it is
   * stored under the current id and counted; before any section it stays
   * in the current bank only and the topic does not change.
   */
  lemma EntryStored(st: Reading, q: string, a: string, c: char, p: ParsingParameters)
    requires p.qaSep == [c] && Free(q, c)
    ensures var st' := Step(st, q + [c] + a, p);
      && st'.current == st.current.WithEntry(q, a) && st'.section == st.section && st'.id == st.id
      && (st.section == Vocabulary ==>
            st'.topic == st.topic.(vocabulary := st.topic.vocabulary[st.id := st'.current],
                                   vocabularyCount := st.topic.vocabularyCount + 1))
      && (st.section == Sentences ==>
            st'.topic == st.topic.(sentences := st.topic.sentences[st.id := st'.current],
                                   sentencesCount := st.topic.sentencesCount + 1))
      && (st.section == NoSection ==> st'.topic == st.topic)
  {
    EntryOfLine(q, a, c);
  }

  /**
   * A line "lessonAnnounce + id" without the separator opens the
   * vocabulary subsection `id`: a stored non-empty-slice bank is resumed,
   * otherwise a new one is stored; the sentences and the counters are kept.
   */
  lemma LessonAnnounced(st: Reading, id: string, p: ParsingParameters)
    requires p.qaSep != [] && p.lessonAnnounce + id != [] && !Contains(p.lessonAnnounce + id, p.qaSep)
    ensures var st' := Step(st, p.lessonAnnounce + id, p);
      && st'.section == Vocabulary && st'.id == id
      && id in st'.topic.vocabulary && st'.topic.vocabulary[id] == st'.current
      && (!Fetch(st.topic.vocabulary, id).nilQuestions ==> st'.topic.vocabulary == st.topic.vocabulary)
      && (Fetch(st.topic.vocabulary, id).nilQuestions ==> st'.current == NewQA(Current))
      && st'.topic.sentences == st.topic.sentences
      && st'.topic.vocabularyCount == st.topic.vocabularyCount
      && st'.topic.sentencesCount == st.topic.sentencesCount
  {
    var line := p.lessonAnnounce + id;
    SplitSingleton(line, p.qaSep);
    assert line[..|p.lessonAnnounce|] == p.lessonAnnounce;
    assert TrimPrefix(line, p.lessonAnnounce) == id;
  }

  /**
   * A line "sentenceAnnounce + id" without the separator, which does not
   * also start with the lesson announce, opens the sentences subsection `id`.
   */
  lemma SentenceAnnounced(st: Reading, id: string, p: ParsingParameters)
    requires p.qaSep != [] && p.sentenceAnnounce + id != [] && !Contains(p.sentenceAnnounce + id, p.qaSep)
    requires !HasPrefix(p.sentenceAnnounce + id, p.lessonAnnounce)
    ensures var st' := Step(st, p.sentenceAnnounce + id, p);
      && st'.section == Sentences && st'.id == id
      && id in st'.topic.sentences && st'.topic.sentences[id] == st'.current
      && (!Fetch(st.topic.sentences, id).nilQuestions ==> st'.topic.sentences == st.topic.sentences)
      && (Fetch(st.topic.sentences, id).nilQuestions ==> st'.current == NewQA(Current))
      && st'.topic.vocabulary == st.topic.vocabulary
      && st'.topic.vocabularyCount == st.topic.vocabularyCount
      && st'.topic.sentencesCount == st.topic.sentencesCount
  {
    var line := p.sentenceAnnounce + id;
    SplitSingleton(line, p.qaSep);
    assert line[..|p.sentenceAnnounce|] == p.sentenceAnnounce;
    assert TrimPrefix(line, p.sentenceAnnounce) == id;
  }

  /** A line without the separator that announces no section is ignored. */
  lemma OtherLineIgnored(st: Reading, line: string, p: ParsingParameters)
    requires |Split(line, p.qaSep)| == 1
    requires !HasPrefix(line, p.lessonAnnounce) && !HasPrefix(line, p.sentenceAnnounce)
    ensures Step(st, line, p) == st
  {
  }

  /** The lines that are not blank. */
  function NonBlank(lines: seq<string>): (r: seq<string>)
    ensures |r| <= |lines| && forall k :: 0 <= k < |r| ==> r[k] != ""
  {
    if lines == [] then []
    else if lines[|lines| - 1] == "" then NonBlank(lines[..|lines| - 1])
    else NonBlank(lines[..|lines| - 1]) + [lines[|lines| - 1]]
  }

  /** Blank lines do nothing: reading the lines is reading the non-blank ones. */
  lemma {:induction false} BlankLinesIgnored(st: Reading, lines: seq<string>, p: ParsingParameters)
    ensures Lines(st, lines, p) == Lines(st, NonBlank(lines), p)
  {
    if lines != [] {
      var init := lines[..|lines| - 1];
      BlankLinesIgnored(st, init, p);
      if lines[|lines| - 1] != "" {
        var r := NonBlank(init) + [lines[|lines| - 1]];
        assert r[..|r| - 1] == NonBlank(init);
      }
    }
  }

  /**
   * The reading's invariant: all banks are valid, the open subsection is
   * stored under the current id and is the current bank, and each counter
   * is the number of entries stored in its family.
   */
  ghost predicate Consistent(st: Reading) {
    && ValidList(st.topic.vocabulary) && ValidList(st.topic.sentences) && st.current.Valid()
    && (st.section == Vocabulary ==> st.id in st.topic.vocabulary && st.topic.vocabulary[st.id] == st.current)
    && (st.section == Sentences ==> st.id in st.topic.sentences && st.topic.sentences[st.id] == st.current)
    && st.topic.vocabularyCount == TotalCount(st.topic.vocabulary)
    && st.topic.sentencesCount == TotalCount(st.topic.sentences)
  }

  /** Opening a subsection stores a valid bank under its id and adds no entry. */
  lemma OpenKeeps(list: map<string, QA>, id: string)
    requires ValidList(list)
    ensures var (qa, m) := GetOrCreate(list, id, Current);
      ValidList(m) && id in m && m[id] == qa && TotalCount(m) == TotalCount(list)
  {
    if Fetch(list, id).nilQuestions {
      TotalCountUpdate(list, id, NewQA(Current));
    }
  }

  /** Storing the open subsection with one more entry adds one to the total. */
  lemma StoreKeeps(list: map<string, QA>, id: string, qa: QA, q: string, a: string)
    requires ValidList(list) && id in list && list[id] == qa && qa.Valid()
    ensures ValidList(list[id := qa.WithEntry(q, a)])
    ensures TotalCount(list[id := qa.WithEntry(q, a)]) == TotalCount(list) + 1
  {
    TotalCountUpdate(list, id, qa.WithEntry(q, a));
  }

  /** Every line keeps the reading consistent. */
  lemma StepConsistent(st: Reading, line: string, p: ParsingParameters)
    requires Consistent(st)
    ensures Consistent(Step(st, line, p))
  {
    if |line| > 0 {
      SplitLine(line, p.qaSep);
      if |Split(line, p.qaSep)| == 1 {
        if HasPrefix(line, p.lessonAnnounce) {
          OpenKeeps(st.topic.vocabulary, TrimPrefix(line, p.lessonAnnounce));
        } else if HasPrefix(line, p.sentenceAnnounce) {
          OpenKeeps(st.topic.sentences, TrimPrefix(line, p.sentenceAnnounce));
        }
      } else {
        var (q, a) := Entry(line, p.qaSep);
        if st.section == Vocabulary {
          StoreKeeps(st.topic.vocabulary, st.id, st.current, q, a);
        } else if st.section == Sentences {
          StoreKeeps(st.topic.sentences, st.id, st.current, q, a);
        }
      }
    }
  }

  /** Any sequence of lines keeps the reading consistent. */
  lemma {:induction false} LinesConsistent(st: Reading, lines: seq<string>, p: ParsingParameters)
    requires Consistent(st)
    ensures Consistent(Lines(st, lines, p))
  {
    if lines != [] {
      LinesConsistent(st, lines[..|lines| - 1], p);
      StepConsistent(Lines(st, lines[..|lines| - 1], p), lines[|lines| - 1], p);
    }
  }

  /**
   * A parsed topic has valid banks only, and its vocabulary and sentence
   * counters are the numbers of entries stored in the two families.
   */
  lemma ParsedCounts(lines: seq<string>, p: ParsingParameters)
    requires Parse(lines, p).Parsed?
    ensures var t := Parse(lines, p).topic;
      && ValidList(t.vocabulary) && ValidList(t.sentences)
      && t.vocabularyCount == TotalCount(t.vocabulary)
      && t.sentencesCount == TotalCount(t.sentences)
  {
    if lines != [] {
      var names := Header(lines[0], p.qaSep).value;
      LinesConsistent(Start(names), lines[1..], p);
    }
  }
}
