/** The AI router without a language model: the deterministic fallbacks that answer when no OpenAI
    client is configured (or its call fails), the message list the chat endpoint sends, and the
    checks of the PDF upload. */
module AiFallback {
  import opened Seqs
  import opened Text

  const NoText := "No text provided"

  /** The character budgets of the two summary fallbacks. */
  const SummaryChars: nat := 200
  const SummaryTextChars: nat := 300

  // -------- summaries --------

  const FullStop: string := "."

  /** `'.'.join(text.split('.')[:n]).strip()`: the first `n` sentences. */
  function LeadingSentences(text: string, n: nat): string {
    Strip(Join(Take(Split(text, FullStop), n), FullStop))
  }

  /** For a stripped, non-blank text and `n >= 2` the leading sentences are a non-blank prefix of
      the text, so the character-prefix fallback after them is never taken. */
  lemma LeadingSentencesPrefix(text: string, n: nat)
    requires text != [] && !IsSpace(text[0]) && n >= 2
    ensures LeadingSentences(text, n) != [] && IsPrefix(LeadingSentences(text, n), text)
  {
    var pieces := Split(text, FullStop);
    var taken := Take(pieces, n);
    var p := Join(taken, FullStop);
    JoinTakePrefix(pieces, n, FullStop);
    JoinSplit(text, FullStop);
    if |pieces| >= 2 {
      assert |taken| >= 2;
      JoinHasSeparator(taken, FullStop);
    } else {
      assert taken == pieces;
    }
    assert p != [] && p[0] == text[0];
    StripSolidStart(p);
  }

  /** A text without a full stop is its own summary. */
  lemma NoFullStopWholeText(text: string, n: nat)
    requires text == Strip(text) && IndexOf(text, FullStop).None? && n >= 1
    ensures LeadingSentences(text, n) == text
  {
    assert Split(text, FullStop) == [text];
    assert Take([text], n) == [text];
  }

  /** The fallback of the first `POST /ai/summarize` (`summarize`): the first two sentences, or the
      first 200 characters when they are blank. Blank input is refused. */
  function Summarize(payload: string): (r: Response<string>)
    ensures r.Fail? <==> IsBlank(payload)
    ensures r.Fail? ==> r == Fail(400, NoText)
    ensures r.Ok? ==> r.value == LeadingSentences(Strip(payload), 2)
    ensures r.Ok? ==> !IsBlank(r.value) && IsPrefix(r.value, Strip(payload))
  {
    var text := Strip(payload);
    if text == [] then Fail(400, NoText)
    else
      var summary := LeadingSentences(text, 2);
      LeadingSentencesPrefix(text, 2);
      StripIdempotent(summary);
      Ok(if summary == [] then Take(text, SummaryChars) else summary)
  }

  datatype SummaryOut = SummaryOut(content: string, keyPoints: seq<string>)

  /** The fallback of the second `POST /ai/summarize` (`summarize_text`): three sentences, 300
      characters, and no key points. */
  function SummarizeText(payload: string): (r: Response<SummaryOut>)
    ensures r.Fail? <==> IsBlank(payload)
    ensures r.Fail? ==> r == Fail(400, NoText)
    ensures r.Ok? ==> r.value.content == LeadingSentences(Strip(payload), 3) && r.value.keyPoints == []
    ensures r.Ok? ==> !IsBlank(r.value.content) && IsPrefix(r.value.content, Strip(payload))
  {
    var text := Strip(payload);
    if text == [] then Fail(400, NoText)
    else
      var summary := LeadingSentences(text, 3);
      LeadingSentencesPrefix(text, 3);
      StripIdempotent(summary);
      Ok(SummaryOut(if summary != [] then summary else Take(text, SummaryTextChars), []))
  }

  // -------- lines and paragraphs --------

  /** `[p.strip() for p in pieces if p.strip()]`. */
  function NonBlankStripped(pieces: seq<string>): (r: seq<string>)
    ensures |r| <= |pieces|
    ensures forall i :: 0 <= i < |r| ==> r[i] != [] && !IsSpace(r[i][0])
  {
    if pieces == [] then []
    else
      var last := Strip(pieces[|pieces| - 1]);
      NonBlankStripped(pieces[..|pieces| - 1]) + if last != [] then [last] else []
  }

  /** The stripped non-blank lines of a text. */
  function Lines(text: string): seq<string> {
    NonBlankStripped(Split(text, LineBreak))
  }

  const LineBreak: string := "\n"

  /** What separates paragraphs: an empty line. */
  const ParagraphBreak: string := "\n\n"

  lemma ParagraphBreakBlank()
    ensures |ParagraphBreak| == 2 && AllSpace(ParagraphBreak)
  {
    assert IsSpace(ParagraphBreak[0]) && IsSpace(ParagraphBreak[1]);
  }

  lemma LineBreakBlank()
    ensures |LineBreak| == 1 && AllSpace(LineBreak)
  {
    assert IsSpace(LineBreak[0]);
  }

  /** The stripped non-blank paragraphs of a text. */
  function Paragraphs(text: string): seq<string> {
    NonBlankStripped(Split(text, ParagraphBreak))
  }

  lemma {:induction false} NonBlankStrippedEmpty(pieces: seq<string>)
    ensures NonBlankStripped(pieces) == [] <==> forall i :: 0 <= i < |pieces| ==> AllSpace(pieces[i])
  {
    if pieces != [] {
      var init := pieces[..|pieces| - 1];
      NonBlankStrippedEmpty(init);
      assert forall i :: 0 <= i < |init| ==> init[i] == pieces[i];
    }
  }

  /** A non-blank text has a non-blank piece when split at a blank separator. */
  lemma NonBlankHasPieces(text: string, sep: string)
    requires |sep| > 0 && AllSpace(sep) && !IsBlank(text)
    ensures |NonBlankStripped(Split(text, sep))| >= 1
  {
    var pieces := Split(text, sep);
    JoinSplit(text, sep);
    NonBlankStrippedEmpty(pieces);
    if forall i :: 0 <= i < |pieces| ==> AllSpace(pieces[i]) {
      JoinAllSpace(pieces, sep);
    }
  }

  lemma NonBlankLines(payload: string)
    requires !IsBlank(payload)
    ensures |Lines(Strip(payload))| >= 1
  {
    StripIdempotent(payload);
    LineBreakBlank();
    NonBlankHasPieces(Strip(payload), LineBreak);
  }

  // -------- flashcards --------

  datatype Flashcard = Flashcard(q: string, a: string)

  function KeyPoint(i: nat): string {
    "Key point " + NatToString(i)
  }

  /** Card `k` (from 0) of the fallback, for its line. */
  function CardFor(k: nat, line: string): Flashcard {
    Flashcard(KeyPoint(k + 1), Take(line, 120))
  }

  /** The card loop of the flashcards fallback over its (at most six) lines. */
  method CardsOf(items: seq<string>) returns (cards: seq<Flashcard>)
    ensures |cards| == |items|
    ensures forall k :: 0 <= k < |items| ==> cards[k] == CardFor(k, items[k])
  {
    cards := [];
    var i := 0;
    while i < |items|
      invariant 0 <= i <= |items|
      invariant |cards| == i
      invariant forall k :: 0 <= k < i ==> cards[k] == CardFor(k, items[k])
    {
      cards := cards + [Flashcard("Key point " + NatToString(i + 1), Take(items[i], 120))];
      i := i + 1;
    }
  }

  /** The fallback of `POST /ai/flashcards`: one card per line for the first six lines, card `k`
      asking "Key point k+1" and answering with the first 120 characters of its line. */
  method Flashcards(payload: string) returns (r: Response<seq<Flashcard>>)
    ensures r.Fail? <==> IsBlank(payload)
    ensures r.Fail? ==> r == Fail(400, NoText)
    ensures r.Ok? ==> var lines := Lines(Strip(payload));
                      1 <= |r.value| == Min(6, |lines|) &&
                      forall k :: 0 <= k < |r.value| ==> r.value[k] == CardFor(k, lines[k])
  {
    var text := Strip(payload);
    if text == [] {
      return Fail(400, NoText);
    }
    NonBlankLines(payload);
    var lines := Lines(text);
    var cards := CardsOf(Take(lines, 6));
    assert 1 <= |cards| == Min(6, |lines|);
    assert forall k :: 0 <= k < |cards| ==> cards[k] == CardFor(k, lines[k]) by {
      forall k | 0 <= k < |cards| ensures cards[k] == CardFor(k, lines[k]) {
        assert Take(lines, 6)[k] == lines[k];
      }
    }
    r := Ok(cards);
  }

  // -------- quiz --------

  datatype QuizQuestion = QuizQuestion(question: string, options: seq<string>, correctAnswer: nat)

  /** The fallback question about one line: the start of the line is the first of four options
      and is marked right. */
  function LineQuestion(line: string): (q: QuizQuestion)
    ensures |q.options| == 4 && q.correctAnswer == 0 && q.options[0] == Take(line, 30)
    ensures IsPrefix("What is the main concept in: '" + Take(line, 50), q.question)
  {
    QuizQuestion("What is the main concept in: '" + Take(line, 50) + "...'?",
                 [Take(line, 30), "Alternative 1", "Alternative 2", "Alternative 3"], 0)
  }

  /** The question loop of the quiz fallback over the first five lines. */
  method QuestionsOf(lines: seq<string>) returns (questions: seq<QuizQuestion>)
    ensures |questions| == Min(5, |lines|)
    ensures forall k :: 0 <= k < |questions| ==> questions[k] == LineQuestion(lines[k])
  {
    questions := [];
    var i := 0;
    while i < Min(5, |lines|)
      invariant 0 <= i <= Min(5, |lines|)
      invariant |questions| == i
      invariant forall k :: 0 <= k < i ==> questions[k] == LineQuestion(lines[k])
    {
      var line := lines[i];
      questions := questions + [QuizQuestion("What is the main concept in: '" + Take(line, 50) + "...'?",
                                             [Take(line, 30), "Alternative 1", "Alternative 2", "Alternative 3"], 0)];
      i := i + 1;
    }
  }

  /** The fallback of `POST /ai/quiz`: a question about each of the first five lines. */
  method GenerateQuiz(payload: string) returns (r: Response<seq<QuizQuestion>>)
    ensures r.Fail? <==> IsBlank(payload)
    ensures r.Fail? ==> r == Fail(400, NoText)
    ensures r.Ok? ==> var lines := Lines(Strip(payload));
                      1 <= |r.value| == Min(5, |lines|) &&
                      forall k :: 0 <= k < |r.value| ==> r.value[k] == LineQuestion(lines[k])
  {
    var text := Strip(payload);
    if text == [] {
      return Fail(400, NoText);
    }
    NonBlankLines(payload);
    var lines := Lines(text);
    var questions := QuestionsOf(lines);
    assert |questions| >= 1 by {
      assert |questions| == Min(5, |lines|) && |lines| >= 1;
    }
    r := Ok(questions);
  }

  // -------- concept map --------

  datatype ConceptNode = ConceptNode(id: nat, caption: string, kind: string)
  datatype ConceptEdge = ConceptEdge(from: nat, to: nat, relation: string)
  datatype ConceptMapOut = ConceptMapOut(nodes: seq<ConceptNode>, edges: seq<ConceptEdge>)

  /** The chain a concept map of `n` lines forms: nodes `0..n-1` labelled with the first 40
      characters of their lines, and an edge from each node to the next. */
  predicate IsChain(m: ConceptMapOut, lines: seq<string>, n: nat)
    requires n <= |lines|
  {
    |m.nodes| == n && |m.edges| == (if n == 0 then 0 else n - 1) &&
    (forall k :: 0 <= k < n ==> m.nodes[k] == ConceptNode(k, Take(lines[k], 40), "concept")) &&
    forall k :: 0 <= k < |m.edges| ==> m.edges[k] == ConceptEdge(k, k + 1, "relates to")
  }

  /** The node and edge loop of the concept-map fallback over the first eight lines. */
  method ChainOf(lines: seq<string>) returns (m: ConceptMapOut)
    ensures IsChain(m, lines, Min(8, |lines|))
  {
    var nodes: seq<ConceptNode> := [];
    var edges: seq<ConceptEdge> := [];
    var i := 0;
    while i < Min(8, |lines|)
      invariant 0 <= i <= Min(8, |lines|)
      invariant IsChain(ConceptMapOut(nodes, edges), lines, i)
    {
      nodes := nodes + [ConceptNode(i, Take(lines[i], 40), "concept")];
      if i > 0 {
        edges := edges + [ConceptEdge(i - 1, i, "relates to")];
      }
      i := i + 1;
    }
    m := ConceptMapOut(nodes, edges);
  }

  /** In a chain every edge joins two existing nodes, and every caption has at most 40 characters. */
  lemma ChainWellFormed(m: ConceptMapOut, lines: seq<string>, n: nat)
    requires n <= |lines| && IsChain(m, lines, n)
    ensures forall k :: 0 <= k < |m.edges| ==> m.edges[k].from < n && m.edges[k].to < n
    ensures forall k :: 0 <= k < |m.nodes| ==> m.nodes[k].id == k && |m.nodes[k].caption| <= 40
  {
  }

  /** The fallback of `POST /ai/concept-map`: a chain of the first eight lines. */
  method ConceptMap(payload: string) returns (r: Response<ConceptMapOut>)
    ensures r.Fail? <==> IsBlank(payload)
    ensures r.Fail? ==> r == Fail(400, NoText)
    ensures r.Ok? ==> var lines := Lines(Strip(payload));
                      |r.value.nodes| >= 1 && IsChain(r.value, lines, Min(8, |lines|))
  {
    var text := Strip(payload);
    if text == [] {
      return Fail(400, NoText);
    }
    NonBlankLines(payload);
    var lines := Lines(text);
    var m := ChainOf(lines);
    assert |m.nodes| >= 1 by {
      assert |m.nodes| == Min(8, |lines|) && |lines| >= 1;
    }
    r := Ok(m);
  }

  // -------- notes into sections --------

  datatype NoteSubsection = NoteSubsection(id: string, title: string, content: string)
  datatype NoteSection = NoteSection(id: string, title: string, content: string, subsections: seq<NoteSubsection>)

  function SectionId(i: nat): string {
    "section-" + NatToString(i)
  }

  function SectionTitle(i: nat): string {
    "Section " + NatToString(i + 1)
  }

  /** Different positions give different section ids. */
  lemma SectionIdsDistinct(i: nat, j: nat)
    requires i != j
    ensures SectionId(i) != SectionId(j)
  {
    if SectionId(i) == SectionId(j) {
      assert SectionId(i)[8..] == NatToString(i);
      assert SectionId(j)[8..] == NatToString(j);
      NatToStringInjective(i, j);
    }
  }

  /** The sections the notes fallback makes of its paragraphs: one for each of the first five,
      "section-k" titled "Section k+1", holding the paragraph and no subsections. */
  predicate SectionsFor(sections: seq<NoteSection>, paragraphs: seq<string>) {
    |sections| == Min(5, |paragraphs|) &&
    forall k :: 0 <= k < |sections| ==> sections[k] == NoteSection(SectionId(k), SectionTitle(k), paragraphs[k], [])
  }

  /** The section loop of the notes fallback over the first five paragraphs. */
  method SectionsOf(paragraphs: seq<string>) returns (sections: seq<NoteSection>)
    ensures SectionsFor(sections, paragraphs)
  {
    sections := [];
    var i := 0;
    while i < Min(5, |paragraphs|)
      invariant 0 <= i <= Min(5, |paragraphs|)
      invariant |sections| == i
      invariant forall k :: 0 <= k < i ==> sections[k] == NoteSection(SectionId(k), SectionTitle(k), paragraphs[k], [])
    {
      sections := sections + [NoteSection("section-" + NatToString(i), "Section " + NatToString(i + 1), paragraphs[i], [])];
      i := i + 1;
    }
  }

  lemma NonBlankParagraphs(content: string)
    requires !IsBlank(content)
    ensures |Paragraphs(Strip(content))| >= 1
  {
    StripIdempotent(content);
    ParagraphBreakBlank();
    NonBlankHasPieces(Strip(content), ParagraphBreak);
  }

  /** The fallback of `POST /ai/parse-notes`: the first five paragraphs of the content become
      sections. `title` and `content` are the payload's values, the empty string for a missing
      key; either one blank is refused. */
  method ParseNotes(title: string, content: string) returns (r: Response<seq<NoteSection>>)
    ensures r.Fail? <==> IsBlank(title) || IsBlank(content)
    ensures r.Fail? ==> r == Fail(400, "Title and content required")
    ensures r.Ok? ==> |r.value| >= 1 && SectionsFor(r.value, Paragraphs(Strip(content)))
  {
    var titleText := Strip(title);
    var contentText := Strip(content);
    if titleText == [] || contentText == [] {
      return Fail(400, "Title and content required");
    }
    NonBlankParagraphs(content);
    var sections := SectionsOf(Paragraphs(contentText));
    r := Ok(sections);
  }

  // -------- chat --------

  /** One item of the request's `history`, whose keys may be missing. */
  datatype HistoryItem = HistoryItem(role: Option<string>, content: Option<string>)

  datatype ChatMessage = ChatMessage(role: string, content: string)

  const TutorPrompt := "You are a helpful AI study tutor. Answer questions clearly and concisely. Help students understand concepts, not just provide answers."

  /** `d.get(key, default)` on a request dictionary. */
  function Get(field: Option<string>, default: string): string {
    match field
    case Some(text) => text
    case None => default
  }

  /** A history item as sent: the role defaults to "user" and the content to "". */
  function AsMessage(item: HistoryItem): ChatMessage {
    ChatMessage(Get(item.role, "user"), Get(item.content, ""))
  }

  /** The 500 of `chat_with_ai` for a null `history`: slicing `None` raises a TypeError inside
      the `try`, and its message is put after "Chat failed: ". */
  const NullHistoryFailure := "Chat failed: 'NoneType' object is not subscriptable"

  /** `chat_with_ai` up to the model call: refused with 503 without a client, with 500 for a null
      history, otherwise the tutor prompt, the last ten history items in order, and the new
      message from the user. */
  method ChatMessages(clientAvailable: bool, history: Option<seq<HistoryItem>>, message: string)
    returns (r: Response<seq<ChatMessage>>)
    ensures r.Fail? <==> !clientAvailable || history.None?
    ensures !clientAvailable ==> r == Fail(503, "OpenAI service not available")
    ensures clientAvailable && history.None? ==> r == Fail(500, NullHistoryFailure)
    ensures r.Ok? ==> var recent := LastN(history.value, 10);
                      |r.value| == |recent| + 2 && |r.value| <= 12 &&
                      r.value[0] == ChatMessage("system", TutorPrompt) &&
                      (forall k :: 0 <= k < |recent| ==> r.value[k + 1] == AsMessage(recent[k])) &&
                      r.value[|r.value| - 1] == ChatMessage("user", message)
  {
    if !clientAvailable {
      return Fail(503, "OpenAI service not available");
    }
    if history.None? {
      return Fail(500, NullHistoryFailure);
    }
    var messages := [ChatMessage("system", TutorPrompt)];
    var recent := LastN(history.value, 10);
    var i := 0;
    while i < |recent|
      invariant 0 <= i <= |recent|
      invariant |messages| == i + 1 && messages[0] == ChatMessage("system", TutorPrompt)
      invariant forall k :: 0 <= k < i ==> messages[k + 1] == AsMessage(recent[k])
    {
      var msg := recent[i];
      messages := messages + [ChatMessage(Get(msg.role, "user"), Get(msg.content, ""))];
      i := i + 1;
    }
    messages := messages + [ChatMessage("user", message)];
    r := Ok(messages);
  }

  // -------- PDF upload --------

  datatype PdfText = PdfText(text: string, pages: nat)

  /** The text gathered from the pages: each page's text followed by a blank line. */
  function PagesText(pages: seq<string>): string {
    if pages == [] then [] else PagesText(pages[..|pages| - 1]) + pages[|pages| - 1] + "\n\n"
  }

  lemma {:induction false} PagesTextBlank(pages: seq<string>)
    ensures AllSpace(PagesText(pages)) <==> forall i :: 0 <= i < |pages| ==> AllSpace(pages[i])
  {
    if pages != [] {
      var init := pages[..|pages| - 1];
      var last := pages[|pages| - 1];
      PagesTextBlank(init);
      var t := PagesText(init);
      var all := PagesText(pages);
      assert all == t + last + "\n\n";
      assert AllSpace(all) <==> AllSpace(t) && AllSpace(last) by {
        assert forall k :: 0 <= k < |t| ==> all[k] == t[k];
        assert forall k :: 0 <= k < |last| ==> all[|t| + k] == last[k];
        assert all[|t| + |last|] == '\n' && all[|t| + |last| + 1] == '\n';
      }
      assert forall i :: 0 <= i < |init| ==> init[i] == pages[i];
    }
  }

  /** The loop collecting the page texts. */
  method CollectPages(pages: seq<string>) returns (text: string)
    ensures text == PagesText(pages)
    ensures IsBlank(text) <==> forall i :: 0 <= i < |pages| ==> AllSpace(pages[i])
  {
    text := "";
    var i := 0;
    while i < |pages|
      invariant 0 <= i <= |pages|
      invariant text == PagesText(pages[..i])
    {
      assert pages[..i + 1][..i] == pages[..i];
      text := text + pages[i] + "\n\n";
      i := i + 1;
    }
    assert pages[..i] == pages;
    PagesTextBlank(pages);
  }

  /** `extract_pdf_text` as written: the 400 for a PDF without text is raised inside the `try`
      whose `except Exception` turns it into a 500. */
  method ExtractPdfAsWritten(filename: string, pages: seq<string>) returns (r: Response<PdfText>)
    ensures !EndsWith(filename, ".pdf") ==> r == Fail(400, "File must be a PDF")
    ensures EndsWith(filename, ".pdf") && (forall i :: 0 <= i < |pages| ==> AllSpace(pages[i])) ==>
              r == Fail(500, "Failed to extract PDF text: 400: No text found in PDF")
    ensures EndsWith(filename, ".pdf") && !(forall i :: 0 <= i < |pages| ==> AllSpace(pages[i])) ==> r.Ok?
    ensures r.Ok? ==> r.value == PdfText(Strip(PagesText(pages)), |pages|)
  {
    if !EndsWith(filename, ".pdf") {
      return Fail(400, "File must be a PDF");
    }
    var text := CollectPages(pages);
    if IsBlank(text) {
      return Fail(500, "Failed to extract PDF text: 400: No text found in PDF");
    }
    r := Ok(PdfText(Strip(text), |pages|));
  }

  /** `extract_pdf_text` as intended: a PDF without text is answered with 400. */
  method ExtractPdf(filename: string, pages: seq<string>) returns (r: Response<PdfText>)
    ensures r.Fail? <==> !EndsWith(filename, ".pdf") || forall i :: 0 <= i < |pages| ==> AllSpace(pages[i])
    ensures !EndsWith(filename, ".pdf") ==> r == Fail(400, "File must be a PDF")
    ensures EndsWith(filename, ".pdf") && r.Fail? ==> r == Fail(400, "No text found in PDF")
    ensures r.Ok? ==> r.value == PdfText(Strip(PagesText(pages)), |pages|) && !IsBlank(r.value.text)
  {
    if !EndsWith(filename, ".pdf") {
      return Fail(400, "File must be a PDF");
    }
    var text := CollectPages(pages);
    if IsBlank(text) {
      return Fail(400, "No text found in PDF");
    }
    StripIdempotent(text);
    r := Ok(PdfText(Strip(text), |pages|));
  }

  /** A PDF of one empty page: the upload as written answers 500 where 400 is meant. */
  method ScannedPdfAnswers() returns (asWritten: Response<PdfText>, intended: Response<PdfText>)
    ensures asWritten == Fail(500, "Failed to extract PDF text: 400: No text found in PDF")
    ensures intended == Fail(400, "No text found in PDF")
  {
    assert EndsWith("scan.pdf", ".pdf") by {
      assert "scan.pdf"[4..] == ".pdf";
    }
    asWritten := ExtractPdfAsWritten("scan.pdf", [""]);
    intended := ExtractPdf("scan.pdf", [""]);
  }
}
