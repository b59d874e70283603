/** The editors of the study-tools page: the manual quiz builder, the personal-note editor with
    its sections and subsections, the list of parsed notes and the AI tutor chat panel. Each
    editor is an object whose fields are the page's state; a handler replaces them. The clock
    (`Date.now()`, which the page uses for fresh ids) is a parameter. */
module StudyTools {
  import opened Seqs
  import opened Text
  import AiFallback

  // -------- manual quizzes --------

  datatype QuizQuestion = QuizQuestion(question: string, options: seq<string>, correctAnswer: int)
  datatype QuizData = QuizData(id: string, topic: string, questions: seq<QuizQuestion>)

  /** The blank question the builder starts from and appends: four empty options, answer 0. */
  const EmptyQuestion := QuizQuestion("", ["", "", "", ""], 0)
  const OptionCount: nat := 4

  const NoTopicError := "Please enter a quiz topic"
  const NoQuestionError := "Please add at least one complete question"

  /** `q.question.trim() && q.options.every(opt => opt.trim())`: `trim()` leaves nothing exactly
      when the text is all white space (`Text.Strip` states the same). */
  predicate Complete(q: QuizQuestion) {
    !AllSpace(q.question) && forall k :: 0 <= k < |q.options| ==> !AllSpace(q.options[k])
  }

  /** The questions a saved quiz keeps. */
  function CompleteQuestions(qs: seq<QuizQuestion>): seq<QuizQuestion> {
    Filter(qs, Complete)
  }

  /** The saved questions are the complete ones, all of them, in their order. */
  lemma CompleteQuestionsExactly(qs: seq<QuizQuestion>)
    ensures forall i :: 0 <= i < |CompleteQuestions(qs)| ==> Complete(CompleteQuestions(qs)[i]) && CompleteQuestions(qs)[i] in qs
    ensures forall i :: 0 <= i < |qs| && Complete(qs[i]) ==> qs[i] in CompleteQuestions(qs)
    ensures (forall i :: 0 <= i < |qs| ==> !Complete(qs[i])) ==> CompleteQuestions(qs) == []
  {
    FilterSound(qs, Complete);
    FilterComplete(qs, Complete);
    if forall i :: 0 <= i < |qs| ==> !Complete(qs[i]) {
      FilterNone(qs, Complete);
    }
  }

  /** One call of `updateManualQuestion`: the field and the value it gets. `optionK` carries the
      number `parseInt` reads from the field name. */
  datatype QuestionEdit = SetQuestion(text: string) | SetCorrectAnswer(n: int) | SetOption(k: int, text: string)

  /** The question after one edit: the named field, or option `k`, and nothing else. */
  function EditQuestion(q: QuizQuestion, e: QuestionEdit): (r: QuizQuestion)
    ensures r.question == (if e.SetQuestion? then e.text else q.question)
    ensures r.correctAnswer == (if e.SetCorrectAnswer? then e.n else q.correctAnswer)
    ensures |r.options| == |q.options|
    ensures forall j :: 0 <= j < |q.options| ==>
              r.options[j] == if e.SetOption? && e.k == j then e.text else q.options[j]
  {
    match e
    case SetQuestion(t) => q.(question := t)
    case SetCorrectAnswer(n) => q.(correctAnswer := n)
    case SetOption(k, t) => if 0 <= k < |q.options| then q.(options := q.options[k := t]) else q
  }

  /** Filling the question and all four options of the blank question makes it complete. */
  lemma FilledQuestionComplete(question: string, a: string, b: string, c: string, d: string)
    requires !AllSpace(question) && !AllSpace(a) && !AllSpace(b) && !AllSpace(c) && !AllSpace(d)
    ensures var q := EditQuestion(EditQuestion(EditQuestion(EditQuestion(EditQuestion(
              EmptyQuestion, SetQuestion(question)), SetOption(0, a)), SetOption(1, b)), SetOption(2, c)), SetOption(3, d));
            Complete(q) && |q.options| == OptionCount && q.correctAnswer == 0 &&
            q.options[0] == a && q.options[1] == b && q.options[2] == c && q.options[3] == d
  {
    EmptyQuestionShape();
    var q1 := EditQuestion(EmptyQuestion, SetQuestion(question));
    assert q1.options == EmptyQuestion.options;
    var q2 := EditQuestion(q1, SetOption(0, a));
    assert q2.options == q1.options[0 := a];
    var q3 := EditQuestion(q2, SetOption(1, b));
    assert q3.options == q2.options[1 := b];
    var q4 := EditQuestion(q3, SetOption(2, c));
    assert q4.options == q3.options[2 := c];
    var q5 := EditQuestion(q4, SetOption(3, d));
    assert q5.options == q4.options[3 := d];
    assert q5.options[0] == a && q5.options[1] == b && q5.options[2] == c && q5.options[3] == d;
    assert q5.question == question;
    forall k | 0 <= k < |q5.options| ensures !AllSpace(q5.options[k]) {
      if k == 0 { assert q5.options[k] == a; }
      else if k == 1 { assert q5.options[k] == b; }
      else if k == 2 { assert q5.options[k] == c; }
      else { assert q5.options[k] == d; }
    }
  }

  lemma EmptyQuestionShape()
    ensures |EmptyQuestion.options| == OptionCount && EmptyQuestion.correctAnswer == 0
    ensures FourOptions([EmptyQuestion])
  {
  }

  /** Keeping some of the questions keeps four options on each. */
  lemma CompleteQuestionsFourOptions(qs: seq<QuizQuestion>)
    requires FourOptions(qs)
    ensures FourOptions(CompleteQuestions(qs))
    ensures forall now, topic :: FourOptions(ManualQuiz(now, topic, qs).questions)
  {
    FilterSound(qs, Complete);
    forall i | 0 <= i < |CompleteQuestions(qs)| ensures |CompleteQuestions(qs)[i].options| == OptionCount {
      var j :| 0 <= j < |qs| && qs[j] == CompleteQuestions(qs)[i];
    }
  }

  /** The questions after `updateManualQuestion(index, …)`: an index with no question throws before
      the state is set, so it changes nothing. */
  function EditedQuestions(qs: seq<QuizQuestion>, index: int, e: QuestionEdit): (r: seq<QuizQuestion>)
    ensures |r| == |qs|
    ensures forall i :: 0 <= i < |qs| ==> r[i] == if i == index then EditQuestion(qs[i], e) else qs[i]
  {
    if 0 <= index < |qs| then qs[index := EditQuestion(qs[index], e)] else qs
  }

  /** Every question in the builder has the four options it started with. */
  predicate FourOptions(qs: seq<QuizQuestion>) {
    forall i :: 0 <= i < |qs| ==> |qs[i].options| == OptionCount
  }

  class ManualQuizEditor {
    var quizzes: seq<QuizData>
    var topic: string
    var questions: seq<QuizQuestion>
    var error: string
    var dialogOpen: bool

    predicate Valid()
      reads this
    {
      FourOptions(questions) && forall i :: 0 <= i < |quizzes| ==> FourOptions(quizzes[i].questions)
    }

    constructor ()
      ensures Valid()
      ensures quizzes == [] && topic == "" && questions == [EmptyQuestion] && error == "" && !dialogOpen
    {
      EmptyQuestionShape();
      quizzes := [];
      topic := "";
      questions := [EmptyQuestion];
      error := "";
      dialogOpen := false;
    }

    /** `addQuestionToManualQuiz`. */
    method AddQuestion()
      requires Valid()
      modifies this
      ensures Valid()
      ensures questions == old(questions) + [EmptyQuestion]
      ensures quizzes == old(quizzes) && topic == old(topic) && error == old(error) && dialogOpen == old(dialogOpen)
    {
      EmptyQuestionShape();
      questions := questions + [EmptyQuestion];
    }

    /** `updateManualQuestion`. */
    method UpdateQuestion(index: int, e: QuestionEdit)
      requires Valid()
      modifies this
      ensures Valid()
      ensures questions == EditedQuestions(old(questions), index, e)
      ensures quizzes == old(quizzes) && topic == old(topic) && error == old(error) && dialogOpen == old(dialogOpen)
    {
      questions := EditedQuestions(questions, index, e);
    }

    /** `handleAddManualQuiz`: refused with a message when the topic is blank and, after that, when
        no question is complete; otherwise the quiz of the complete questions is appended and the
        builder is reset. The error message of an earlier attempt is left standing. */
    method AddManualQuiz(now: int)
      requires Valid()
      modifies this
      ensures Valid()
      ensures AllSpace(old(topic)) ==>
                error == NoTopicError && quizzes == old(quizzes) && topic == old(topic) &&
                questions == old(questions) && dialogOpen == old(dialogOpen)
      ensures !AllSpace(old(topic)) && CompleteQuestions(old(questions)) == [] ==>
                error == NoQuestionError && quizzes == old(quizzes) && topic == old(topic) &&
                questions == old(questions) && dialogOpen == old(dialogOpen)
      ensures !AllSpace(old(topic)) && CompleteQuestions(old(questions)) != [] ==>
                quizzes == old(quizzes) + [ManualQuiz(now, old(topic), old(questions))] &&
                topic == "" && questions == [EmptyQuestion] && error == old(error) && !dialogOpen
    {
      if AllSpace(topic) {
        error := NoTopicError;
      } else if CompleteQuestions(questions) == [] {
        error := NoQuestionError;
      } else {
        var quiz := ManualQuiz(now, topic, questions);
        CompleteQuestionsFourOptions(questions);
        QuizzesFourOptions(quizzes, quiz);
        EmptyQuestionShape();
        quizzes := quizzes + [quiz];
        topic := "";
        questions := [EmptyQuestion];
        dialogOpen := false;
        assert FourOptions(questions);
        assert forall i :: 0 <= i < |quizzes| ==> FourOptions(quizzes[i].questions);
      }
    }
  }

  /** The quiz `handleAddManualQuiz` saves. */
  function ManualQuiz(now: int, topic: string, qs: seq<QuizQuestion>): QuizData {
    QuizData(QuizIdPrefix + IntToString(now), topic, CompleteQuestions(qs))
  }

  const QuizIdPrefix := "quiz-manual-"

  lemma QuizzesFourOptions(quizzes: seq<QuizData>, quiz: QuizData)
    requires forall i :: 0 <= i < |quizzes| ==> FourOptions(quizzes[i].questions)
    requires FourOptions(quiz.questions)
    ensures forall i :: 0 <= i < |quizzes + [quiz]| ==> FourOptions((quizzes + [quiz])[i].questions)
  {
  }

  // -------- notes and personal notes --------

  datatype Subsection = Subsection(id: string, title: string, content: string)
  datatype Section = Section(id: string, title: string, content: string, subsections: seq<Subsection>)
  /** A parsed note; its sections come back from the server. */
  datatype Note = Note(id: string, title: string, content: string, sections: seq<Section>, createdAt: int)
  datatype PersonalNote = PersonalNote(id: string, title: string, sections: seq<Section>, createdAt: int)

  /** The section the editor opens and resets to. */
  const FirstSection := Section("section-1", "", "", [])

  /** `notes.filter(n => n.id !== id)`: every note with that id goes, the rest keep their order. */
  function WithoutNote(notes: seq<Note>, id: string): (r: seq<Note>)
    ensures forall i :: 0 <= i < |r| ==> r[i].id != id && r[i] in notes
    ensures forall i :: 0 <= i < |notes| && notes[i].id != id ==> notes[i] in r
  {
    var p := (n: Note) => n.id != id;
    FilterSound(notes, p);
    FilterComplete(notes, p);
    Filter(notes, p)
  }

  /** Deleting a note that is not there changes nothing; deleting twice is deleting once. */
  lemma WithoutNoteIdempotent(notes: seq<Note>, id: string)
    ensures WithoutNote(WithoutNote(notes, id), id) == WithoutNote(notes, id)
    ensures (forall i :: 0 <= i < |notes| ==> notes[i].id != id) ==> WithoutNote(notes, id) == notes
  {
    var p := (n: Note) => n.id != id;
    FilterAll(WithoutNote(notes, id), p);
    if forall i :: 0 <= i < |notes| ==> notes[i].id != id {
      FilterAll(notes, p);
    }
  }

  /** `personalNotes.filter(n => n.id !== id)`. */
  function WithoutPersonalNote(notes: seq<PersonalNote>, id: string): (r: seq<PersonalNote>)
    ensures forall i :: 0 <= i < |r| ==> r[i].id != id && r[i] in notes
    ensures forall i :: 0 <= i < |notes| && notes[i].id != id ==> notes[i] in r
  {
    var p := (n: PersonalNote) => n.id != id;
    FilterSound(notes, p);
    FilterComplete(notes, p);
    Filter(notes, p)
  }

  /** `s.title || s.content`: a section is saved when either string is non-empty. */
  predicate HasText(s: Section) {
    s.title != "" || s.content != ""
  }

  datatype TextField = TitleField | ContentField

  function WithSectionText(s: Section, f: TextField, value: string): Section {
    match f
    case TitleField => s.(title := value)
    case ContentField => s.(content := value)
  }

  function WithSubsectionText(s: Subsection, f: TextField, value: string): Subsection {
    match f
    case TitleField => s.(title := value)
    case ContentField => s.(content := value)
  }

  /** `splice(start, 1)`: a negative start counts from the end (and is clamped to 0). */
  function SpliceOne<T>(s: seq<T>, start: int): (r: seq<T>)
    ensures 0 <= start < |s| ==> r == RemoveAt(s, start)
    ensures -|s| <= start < 0 ==> r == RemoveAt(s, |s| + start)
    ensures start >= |s| ==> r == s
    ensures start < -|s| && s != [] ==> r == s[1..]
  {
    if start >= 0 then RemoveAt(s, start)
    else if |s| + start >= 0 then RemoveAt(s, |s| + start)
    else RemoveAt(s, 0)
  }

  /** `filter((_, i) => i !== index)`: no element has a negative index, so that deletes nothing. */
  function WithoutIndex<T>(s: seq<T>, index: int): (r: seq<T>)
    ensures 0 <= index < |s| ==> |r| == |s| - 1
    ensures index < 0 || index >= |s| ==> r == s
    ensures forall j :: 0 <= j < |r| ==> r[j] == if 0 <= index <= j then s[j + 1] else s[j]
  {
    if index >= 0 then RemoveAt(s, index) else s
  }

  /** The sections after `handleUpdateSection`; a missing index throws before the state is set. */
  function UpdatedSection(sections: seq<Section>, index: int, f: TextField, value: string): (r: seq<Section>)
    ensures |r| == |sections|
    ensures forall i :: 0 <= i < |sections| ==>
              r[i] == if i == index then WithSectionText(sections[i], f, value) else sections[i]
  {
    if 0 <= index < |sections| then sections[index := WithSectionText(sections[index], f, value)] else sections
  }

  /** The sections after `handleAddSubsection`: one empty subsection more at the end of the chosen
      section only. */
  function AddedSubsection(sections: seq<Section>, si: int, now: int): (r: seq<Section>)
    ensures |r| == |sections|
    ensures forall i :: 0 <= i < |sections| && i != si ==> r[i] == sections[i]
    ensures 0 <= si < |sections| ==>
              r[si].subsections == sections[si].subsections + [Subsection("subsection-" + IntToString(now), "", "")] &&
              r[si] == sections[si].(subsections := r[si].subsections)
  {
    if 0 <= si < |sections| then
      var s := sections[si];
      sections[si := s.(subsections := s.subsections + [Subsection("subsection-" + IntToString(now), "", "")])]
    else sections
  }

  /** The sections after `handleUpdateSubsection`: one field of one subsection. A missing section or
      subsection throws before the state is set. */
  function UpdatedSubsection(sections: seq<Section>, si: int, ssi: int, f: TextField, value: string): (r: seq<Section>)
    ensures |r| == |sections|
    ensures forall i :: 0 <= i < |sections| && i != si ==> r[i] == sections[i]
    ensures 0 <= si < |sections| ==>
              var subs := sections[si].subsections;
              r[si].id == sections[si].id && r[si].title == sections[si].title && r[si].content == sections[si].content &&
              |r[si].subsections| == |subs| &&
              forall j :: 0 <= j < |subs| ==>
                r[si].subsections[j] == if j == ssi then WithSubsectionText(subs[j], f, value) else subs[j]
  {
    if 0 <= si < |sections| && 0 <= ssi < |sections[si].subsections| then
      var s := sections[si];
      sections[si := s.(subsections := s.subsections[ssi := WithSubsectionText(s.subsections[ssi], f, value)])]
    else sections
  }

  /** The sections after `handleDeleteSubsection`: `splice(ssi, 1)` on the chosen section's list. */
  function DeletedSubsection(sections: seq<Section>, si: int, ssi: int): (r: seq<Section>)
    ensures |r| == |sections|
    ensures forall i :: 0 <= i < |sections| && i != si ==> r[i] == sections[i]
    ensures 0 <= si < |sections| ==>
              r[si] == sections[si].(subsections := SpliceOne(sections[si].subsections, ssi))
  {
    if 0 <= si < |sections| then
      var s := sections[si];
      sections[si := s.(subsections := SpliceOne(s.subsections, ssi))]
    else sections
  }

  /** Adding a subsection and deleting the last one of that section restores the sections. */
  lemma AddThenDeleteSubsection(sections: seq<Section>, si: int, now: int)
    requires 0 <= si < |sections|
    ensures DeletedSubsection(AddedSubsection(sections, si, now), si, |sections[si].subsections|) == sections
  {
    var added := AddedSubsection(sections, si, now);
    var subs := sections[si].subsections;
    assert RemoveAt(added[si].subsections, |subs|) == subs;
    assert added[si].(subsections := subs) == sections[si];
  }

  /** Deleting the section just added restores the sections. */
  lemma AddThenDeleteSection(sections: seq<Section>, s: Section)
    ensures WithoutIndex(sections + [s], |sections|) == sections
  {
  }

  class PersonalNoteEditor {
    var notes: seq<PersonalNote>
    var title: string
    var sections: seq<Section>
    var dialogOpen: bool

    constructor ()
      ensures notes == [] && title == "" && sections == [FirstSection] && !dialogOpen
    {
      notes := [];
      title := "";
      sections := [FirstSection];
      dialogOpen := false;
    }

    /** `handleAddPersonalNote`: the note keeps the sections with some text, in order; the editor
        goes back to one empty section. */
    method AddPersonalNote(now: int)
      modifies this
      ensures notes == old(notes) + [PersonalNote("personal-note-" + IntToString(now), old(title), Filter(old(sections), HasText), now)]
      ensures title == "" && sections == [FirstSection] && !dialogOpen
    {
      notes := notes + [PersonalNote("personal-note-" + IntToString(now), title, Filter(sections, HasText), now)];
      title := "";
      sections := [FirstSection];
      dialogOpen := false;
    }

    /** `handleDeletePersonalNote`. */
    method DeletePersonalNote(id: string)
      modifies this
      ensures notes == WithoutPersonalNote(old(notes), id)
      ensures title == old(title) && sections == old(sections) && dialogOpen == old(dialogOpen)
    {
      notes := WithoutPersonalNote(notes, id);
    }

    /** `handleAddSection`. */
    method AddSection(now: int)
      modifies this
      ensures sections == old(sections) + [Section("section-" + IntToString(now), "", "", [])]
      ensures notes == old(notes) && title == old(title) && dialogOpen == old(dialogOpen)
    {
      sections := sections + [Section("section-" + IntToString(now), "", "", [])];
    }

    /** `handleUpdateSection`. */
    method UpdateSection(index: int, f: TextField, value: string)
      modifies this
      ensures sections == UpdatedSection(old(sections), index, f, value)
      ensures notes == old(notes) && title == old(title) && dialogOpen == old(dialogOpen)
    {
      sections := UpdatedSection(sections, index, f, value);
    }

    /** `handleDeleteSection`. */
    method DeleteSection(index: int)
      modifies this
      ensures sections == WithoutIndex(old(sections), index)
      ensures notes == old(notes) && title == old(title) && dialogOpen == old(dialogOpen)
    {
      sections := WithoutIndex(sections, index);
    }

    /** `handleAddSubsection`. */
    method AddSubsection(si: int, now: int)
      modifies this
      ensures sections == AddedSubsection(old(sections), si, now)
      ensures notes == old(notes) && title == old(title) && dialogOpen == old(dialogOpen)
    {
      sections := AddedSubsection(sections, si, now);
    }

    /** `handleUpdateSubsection`. */
    method UpdateSubsection(si: int, ssi: int, f: TextField, value: string)
      modifies this
      ensures sections == UpdatedSubsection(old(sections), si, ssi, f, value)
      ensures notes == old(notes) && title == old(title) && dialogOpen == old(dialogOpen)
    {
      sections := UpdatedSubsection(sections, si, ssi, f, value);
    }

    /** `handleDeleteSubsection`. */
    method DeleteSubsection(si: int, ssi: int)
      modifies this
      ensures sections == DeletedSubsection(old(sections), si, ssi)
      ensures notes == old(notes) && title == old(title) && dialogOpen == old(dialogOpen)
    {
      sections := DeletedSubsection(sections, si, ssi);
    }
  }

  /** A saved note holds exactly the sections that have some text, in order. */
  lemma SavedSectionsHaveText(sections: seq<Section>)
    ensures forall i :: 0 <= i < |Filter(sections, HasText)| ==>
              HasText(Filter(sections, HasText)[i]) && Filter(sections, HasText)[i] in sections
    ensures forall i :: 0 <= i < |sections| && HasText(sections[i]) ==> sections[i] in Filter(sections, HasText)
    ensures Filter([FirstSection], HasText) == []
  {
    FilterSound(sections, HasText);
    FilterComplete(sections, HasText);
    FilterSingle(FirstSection, HasText);
  }

  // -------- chat --------

  datatype Role = User | Assistant
  datatype ChatMessage = ChatMessage(role: Role, content: string)
  /** The body posted to `/ai/chat`. */
  datatype ChatRequest = ChatRequest(message: string, history: seq<ChatMessage>)

  const HistoryWindow: nat := 10
  const ErrorReply := "Sorry, I encountered an error. Please try again."

  class ChatPanel {
    var messages: seq<ChatMessage>
    var input: string
    var sending: bool

    constructor (greeting: string)
      ensures messages == [ChatMessage(Assistant, greeting)] && input == "" && !sending
    {
      messages := [ChatMessage(Assistant, greeting)];
      input := "";
      sending := false;
    }

    /** The synchronous part of `handleSendMessage`: blank input is ignored; otherwise the user's
        message is shown, the input cleared, and the request carries the text and the last ten
        messages from before it. */
    method SendMessage() returns (request: Option<ChatRequest>)
      modifies this
      ensures AllSpace(old(input)) ==>
                request == None && messages == old(messages) && input == old(input) && sending == old(sending)
      ensures !AllSpace(old(input)) ==>
                request == Some(ChatRequest(old(input), LastN(old(messages), HistoryWindow))) &&
                messages == old(messages) + [ChatMessage(User, old(input))] && input == "" && sending
    {
      if AllSpace(input) {
        return None;
      }
      request := Some(ChatRequest(input, LastN(messages, HistoryWindow)));
      messages := messages + [ChatMessage(User, input)];
      input := "";
      sending := true;
    }

    /** The end of `handleSendMessage`: the reply, or the apology when the request failed. */
    method ReceiveReply(reply: Option<string>)
      modifies this
      ensures messages == old(messages) + [ChatMessage(Assistant, if reply.Some? then reply.value else ErrorReply)]
      ensures input == old(input) && !sending
    {
      messages := messages + [ChatMessage(Assistant, if reply.Some? then reply.value else ErrorReply)];
      sending := false;
    }
  }

  /** The history sent is the tail of at most ten messages that were already on screen, so the
      server's own ten-message window leaves it as it is. */
  lemma HistoryWindowStable(messages: seq<ChatMessage>)
    ensures |LastN(messages, HistoryWindow)| <= HistoryWindow
    ensures LastN(LastN(messages, HistoryWindow), HistoryWindow) == LastN(messages, HistoryWindow)
  {
    var w := LastN(messages, HistoryWindow);
    assert w == messages[|messages| - |w|..];
  }

  /** The role as the page's JSON spells it. */
  function RoleName(role: Role): string {
    match role
    case User => "user"
    case Assistant => "assistant"
  }

  /** The posted `history` as the server reads it: every item carries both keys. */
  function AsHistory(ms: seq<ChatMessage>): seq<AiFallback.HistoryItem> {
    seq(|ms|, k requires 0 <= k < |ms| => AiFallback.HistoryItem(Some(RoleName(ms[k].role)), Some(ms[k].content)))
  }

  /** The ten on-screen messages the panel posts reach the model whole and in order: the server's
      window keeps every item, and each is forwarded with its own role and text. */
  lemma HistoryForwarded(messages: seq<ChatMessage>)
    ensures var sent := LastN(messages, HistoryWindow);
            var items := AsHistory(sent);
            |items| == |sent| && LastN(items, 10) == items &&
            forall k :: 0 <= k < |sent| ==>
              AiFallback.AsMessage(items[k]) == AiFallback.ChatMessage(RoleName(sent[k].role), sent[k].content)
  {
    var sent := LastN(messages, HistoryWindow);
    var items := AsHistory(sent);
    assert |items| <= 10;
  }
}
