/** The control flow of `GeminiSummarizer` with every call to the generative
    model replaced by the answer it gives: no email gives a fixed sentence, one
    email is summarized directly, and several are summarized one by one and
    then consolidated, with a deterministic concatenation when the
    consolidation fails or comes back blank. */
module GeminiSummarizer {
  import opened Wrappers
  import opened JsStrings
  import opened GmailClient

  /** The generative model as the engine sees it: the answer to its `call`-th
      request (counted from 0) with the given prompt, either the response text
      or the message of the error it threw. Every combination of successes,
      failures and blank answers is some `Model`. */
  type Model = (nat, string) -> Result<string>

  /** How many characters of a body go into a prompt. */
  const BodyLimit: nat := 10000

  const NothingToSummarize := "Nenhum email encontrado para resumir."

  // ------------------------------------------------------ wording

  /** The fixed texts of the two prompts, around the parts that vary: the text
      before the subject line and the text after the body of a one-email
      prompt, and the texts before and after the entries of the consolidation
      prompt. The functions below are stated for any wording, so that proofs
      about the structure of a prompt never have to look inside these texts;
      the program uses `Portuguese`. */
  datatype Wording = Wording(
    emailIntro: string,
    emailTail: string,
    consolidatedHead: string,
    consolidatedTail: string)

  /** The wording of the program. The texts are concatenations of short
      literals, which the verifier handles far more cheaply than long ones. */
  const Portuguese := Wording(
    "\nVocê é um assistente " + "que resume emails " + "de newsletters " + "e notícias.\n"
    + "\n"
    + "Analise o seguinte " + "email e forneça " + "um resumo conciso " + "e informativo "
      + "em português:\n"
    + "\n",
    " \n"
    + "\n"
    + "Por favor, forneça:\n"
    + "1. Um resumo dos " + "principais pontos " + "em 3-5 frases\n"
    + "2. Liste os tópicos " + "mais importantes " + "mencionados\n"
    + "\n"
    + "Mantenha o resumo " + "objetivo e focado " + "nas informações " + "relevantes.\n",
    "\nVocê recebeu " + "os seguintes " + "resumos de emails " + "de newsletters/notícias:\n"
    + "\n",
    "\n"
    + "\n"
    + "Por favor, crie " + "um resumo executivo " + "consolidado " + "em português que:\n"
    + "1. Agrupe os tópicos " + "relacionados\n"
    + "2. Destaque as " + "notícias/informações " + "mais importantes\n"
    + "3. Seja conciso " + "e fácil de ler\n"
    + "4. Mantenha a " + "estrutura organizada\n"
    + "\n"
    + "Formato sugerido:\n"
    + "- Principais " + "destaques do dia\n"
    + "- Tópicos por " + "categoria " + "(se aplicável)\n"
    + "- Observações finais\n")

  // ------------------------------------------------------ one email

  function EmailPromptHead(w: Wording, email: Email): string {
    w.emailIntro + "**Assunto:** " + email.subject + "\n**De:** " + email.from + "\n**Data:** " + email.date
    + "\n\n**Conteúdo:**\n"
  }

  /** The prompt of `summarizeEmail`, with `email.body.substring(0, 10000)`. */
  function EmailPrompt(w: Wording, email: Email): string {
    EmailPromptHead(w, email) + Substring0(email.body, BodyLimit) + w.emailTail
  }

  /** The prompt holds the first `min(|body|, 10000)` characters of the body,
      right after the header lines and followed directly by the fixed closing
      text: no marker says that the body was cut. */
  lemma EmailPromptTruncatesBody(w: Wording, email: Email)
    ensures var p := EmailPrompt(w, email);
      && |p| == |EmailPromptHead(w, email)| + Min(|email.body|, BodyLimit) + |w.emailTail|
      && OccursAt(email.body[..Min(|email.body|, BodyLimit)], p, |EmailPromptHead(w, email)|)
      && p[|p| - |w.emailTail|..] == w.emailTail
  {
    var b := Substring0(email.body, BodyLimit);
    OccursInConcat(b, EmailPromptHead(w, email), b, w.emailTail, 0);
  }

  /** Characters from index 10000 on never reach the model: two emails that
      agree on everything but the body beyond its first 10000 characters get
      the same prompt, hence the same summary from the same model. */
  lemma SummaryIgnoresBodyBeyondLimit(w: Wording, e1: Email, e2: Email, model: Model, call: nat)
    requires e1.subject == e2.subject && e1.from == e2.from && e1.date == e2.date
    requires |e1.body| >= BodyLimit && |e2.body| >= BodyLimit
    requires e1.body[..BodyLimit] == e2.body[..BodyLimit]
    ensures EmailPrompt(w, e1) == EmailPrompt(w, e2)
    ensures SummarizeEmail(w, e1, model, call) == SummarizeEmail(w, e2, model, call)
  {
    assert Substring0(e1.body, BodyLimit) == e1.body[..BodyLimit];
  }

  function EmptyPlaceholder(subject: string): string {
    "Resumo não disponível para: " + subject
  }

  /** The text is written in two pieces: the verifier reads single characters
      off a short literal but not off one this long. */
  function SafetyPlaceholder(subject: string): string {
    "Erro: " + "Conteúdo bloqueado por filtros de segurança para " + subject
  }

  function ErrorPlaceholder(subject: string, message: string): string {
    "Erro ao gerar resumo para " + subject + ": " + message
  }

  /** The three placeholders can be told apart from one another whatever the
      subjects and the error message. */
  lemma PlaceholdersDistinct(s1: string, s2: string, message: string)
    ensures SafetyPlaceholder(s1) != ErrorPlaceholder(s2, message)
    ensures EmptyPlaceholder(s1) != SafetyPlaceholder(s2)
    ensures EmptyPlaceholder(s1) != ErrorPlaceholder(s2, message)
  {
    var safety := "Erro: ";
    var error := "Erro ao gerar resumo para ";
    var empty := "Resumo não disponível para: ";
    assert SafetyPlaceholder(s1)[4] == safety[4] == ':';
    assert ErrorPlaceholder(s2, message)[4] == error[4] == ' ';
    assert SafetyPlaceholder(s2)[0] == safety[0] == 'E';
    assert ErrorPlaceholder(s2, message)[0] == error[0] == 'E';
    assert EmptyPlaceholder(s1)[0] == empty[0] == 'R';
  }

  /** What `summarizeEmail` makes of the model's answer for an email with this
      subject. It never fails and never yields "": non-blank text is returned
      as it is (not trimmed); blank text gives the "not available" placeholder;
      an error whose message contains SAFETY gives the "blocked" placeholder
      and any other error the generic one, which carries the message. */
  function SummaryText(subject: string, answer: Result<string>): (s: string)
    ensures s != ""
    ensures answer.Ok? && !IsBlank(answer.value) ==> s == answer.value
    ensures answer.Ok? && IsBlank(answer.value) ==> s == EmptyPlaceholder(subject)
    ensures answer.Err? ==> (s == SafetyPlaceholder(subject) <==> Includes(answer.message, "SAFETY"))
    ensures answer.Err? && !Includes(answer.message, "SAFETY") ==> s == ErrorPlaceholder(subject, answer.message)
  {
    PlaceholdersDistinct(subject, subject, if answer.Err? then answer.message else "");
    match answer
    case Ok(text) =>
      TrimEmptyIffBlank(text);
      if |Trim(text)| == 0 then EmptyPlaceholder(subject) else text
    case Err(message) =>
      if Includes(message, "SAFETY") then SafetyPlaceholder(subject)
      else ErrorPlaceholder(subject, message)
  }

  /** `summarizeEmail(email)` issued as the model's `call`-th request. */
  function SummarizeEmail(w: Wording, email: Email, model: Model, call: nat): string {
    SummaryText(email.subject, model(call, EmailPrompt(w, email)))
  }

  // ------------------------------------------------------ several emails

  /** An entry of `emailSummaries`. */
  datatype EmailSummary = EmailSummary(subject: string, from: string, summary: string)

  /** The map step: entry `i` is made from email `i` by the model's `i`-th
      call. */
  function MapStep(w: Wording, emails: seq<Email>, model: Model): (items: seq<EmailSummary>)
    ensures |items| == |emails|
  {
    seq(|emails|, i requires 0 <= i < |emails| =>
      EmailSummary(emails[i].subject, emails[i].from, SummarizeEmail(w, emails[i], model, i)))
  }

  function EmailPrompts(w: Wording, emails: seq<Email>): seq<string> {
    seq(|emails|, i requires 0 <= i < |emails| => EmailPrompt(w, emails[i]))
  }

  /** The part of the consolidated prompt about entry `index`. */
  function PromptEntry(index: nat, item: EmailSummary): string {
    "\n**Email " + DecimalString(index + 1) + ": " + item.subject + "**\nDe: " + item.from + "\n"
    + item.summary + "\n"
  }

  function PromptEntries(items: seq<EmailSummary>): seq<string> {
    seq(|items|, i requires 0 <= i < |items| => PromptEntry(i, items[i]))
  }

  const EntrySeparator := "\n---\n"

  function ConsolidatedPrompt(w: Wording, items: seq<EmailSummary>): string {
    w.consolidatedHead + Join(PromptEntries(items), EntrySeparator) + w.consolidatedTail
  }

  /** Where entry `i` starts in the consolidated prompt. */
  function PromptEntryOffset(w: Wording, items: seq<EmailSummary>, i: nat): nat
    requires i <= |items|
  {
    |w.consolidatedHead| + JoinOffset(PromptEntries(items), EntrySeparator, i)
  }

  /** The consolidated prompt lists the entries in the order of the emails:
      entry `i`, labelled `Email i+1` with its subject, sender and summary,
      sits at its offset, and entry `i + 1` starts right after it and one
      separator. */
  lemma ConsolidatedPromptInOrder(w: Wording, items: seq<EmailSummary>, i: nat)
    requires i < |items|
    ensures var p := ConsolidatedPrompt(w, items);
      && OccursAt(PromptEntry(i, items[i]), p, PromptEntryOffset(w, items, i))
      && (i + 1 < |items| ==>
            && OccursAt(EntrySeparator, p, PromptEntryOffset(w, items, i) + |PromptEntry(i, items[i])|)
            && PromptEntryOffset(w, items, i + 1)
               == PromptEntryOffset(w, items, i) + |PromptEntry(i, items[i])| + |EntrySeparator|)
  {
    var entries := PromptEntries(items);
    FramedJoinAt(w.consolidatedHead, entries, EntrySeparator, w.consolidatedTail, i);
    assert entries[i] == PromptEntry(i, items[i]);
  }

  /** The part of the fallback about entry `index`. */
  function FallbackEntry(index: nat, item: EmailSummary): string {
    "**" + DecimalString(index + 1) + ". " + item.subject + "**\n" + item.summary
  }

  function FallbackEntries(items: seq<EmailSummary>): seq<string> {
    seq(|items|, i requires 0 <= i < |items| => FallbackEntry(i, items[i]))
  }

  const FallbackSeparator := "\n\n---\n\n"

  /** The concatenation returned when consolidation fails: the entries, each
      headed by its 1-based number and subject, in order. */
  function Fallback(items: seq<EmailSummary>): (s: string)
    ensures |items| > 0 ==> "**1" <= s
  {
    FallbackStartsWithFirstEntry(items);
    Join(FallbackEntries(items), FallbackSeparator)
  }

  lemma FallbackStartsWithFirstEntry(items: seq<EmailSummary>)
    ensures |items| > 0 ==> "**1" <= Join(FallbackEntries(items), FallbackSeparator)
  {
    if |items| > 0 {
      var entries := FallbackEntries(items);
      JoinAt(entries, FallbackSeparator, 0);
      assert "**1" <= entries[0];
    }
  }

  /** The fallback lists entry `i` at its offset, and entry `i + 1` right after
      it and one separator. */
  lemma FallbackInOrder(items: seq<EmailSummary>, i: nat)
    requires i < |items|
    ensures var f := Fallback(items);
      var o := JoinOffset(FallbackEntries(items), FallbackSeparator, i);
      && OccursAt(FallbackEntry(i, items[i]), f, o)
      && (i + 1 < |items| ==>
            && OccursAt(FallbackSeparator, f, o + |FallbackEntry(i, items[i])|)
            && JoinOffset(FallbackEntries(items), FallbackSeparator, i + 1)
               == o + |FallbackEntry(i, items[i])| + |FallbackSeparator|)
  {
    JoinAt(FallbackEntries(items), FallbackSeparator, i);
  }

  /** The reduce step: a non-blank answer is the result as it is; a blank
      answer and a failed call both give the fallback. */
  function Consolidate(items: seq<EmailSummary>, answer: Result<string>): (s: string)
    ensures |items| > 0 ==> s != ""
    ensures answer.Ok? && !IsBlank(answer.value) ==> s == answer.value
    ensures !(answer.Ok? && !IsBlank(answer.value)) ==> s == Fallback(items)
  {
    match answer
    case Ok(text) =>
      TrimEmptyIffBlank(text);
      if |Trim(text)| == 0 then Fallback(items) else text
    case Err(_) => Fallback(items)
  }

  /** `summarizeMultipleEmails(emails)` as a value. */
  function Summary(w: Wording, emails: seq<Email>, model: Model): string {
    if |emails| == 0 then NothingToSummarize
    else if |emails| == 1 then SummarizeEmail(w, emails[0], model, 0)
    else
      var items := MapStep(w, emails, model);
      Consolidate(items, model(|emails|, ConsolidatedPrompt(w, items)))
  }

  /** The prompts `summarizeMultipleEmails(emails)` sends, in order. */
  function Prompts(w: Wording, emails: seq<Email>, model: Model): seq<string> {
    if |emails| == 0 then []
    else if |emails| == 1 then [EmailPrompt(w, emails[0])]
    else EmailPrompts(w, emails) + [ConsolidatedPrompt(w, MapStep(w, emails, model))]
  }

  /** One request per email, in the order of the emails, and with two or more
      emails one more request, the consolidation, as the last. */
  lemma RequestsFollowEmails(w: Wording, emails: seq<Email>, model: Model)
    ensures |Prompts(w, emails, model)| == if |emails| <= 1 then |emails| else |emails| + 1
    ensures forall i | 0 <= i < |emails| :: Prompts(w, emails, model)[i] == EmailPrompt(w, emails[i])
    ensures |emails| >= 2 ==>
      Prompts(w, emails, model)[|emails|] == ConsolidatedPrompt(w, MapStep(w, emails, model))
  {
  }

  /** One call of `summarizeEmail`: the summary text, and as a ghost output
      the prompt it sent. */
  method SummarizeOne(email: Email, model: Model, call: nat) returns (text: string, ghost prompt: string)
    ensures text == SummarizeEmail(Portuguese, email, model, call) && prompt == EmailPrompt(Portuguese, email)
    ensures text != ""
    ensures model(call, prompt).Ok? && !IsBlank(model(call, prompt).value) ==> text == model(call, prompt).value
    ensures model(call, prompt).Ok? && IsBlank(model(call, prompt).value) ==> text == EmptyPlaceholder(email.subject)
    ensures model(call, prompt).Err? ==>
      (text == SafetyPlaceholder(email.subject) <==> Includes(model(call, prompt).message, "SAFETY"))
    ensures model(call, prompt).Err? && !Includes(model(call, prompt).message, "SAFETY") ==>
      text == ErrorPlaceholder(email.subject, model(call, prompt).message)
  {
    var request := EmailPrompt(Portuguese, email);
    text := SummaryText(email.subject, model(call, request));
    prompt := request;
  }

  /** The loop of `summarizeMultipleEmails` over two or more emails: one
      entry per email, in order, with a pause after every email but the last.
      It returns the entries, and as ghost outputs the prompts it sent and the
      number of pauses it made. */
  method SummarizeEach(emails: seq<Email>, model: Model)
    returns (emailSummaries: seq<EmailSummary>, ghost prompts: seq<string>, ghost pauses: nat)
    requires |emails| >= 2
    ensures emailSummaries == MapStep(Portuguese, emails, model)
    ensures prompts == EmailPrompts(Portuguese, emails)
    ensures pauses == |emails| - 1
  {
    ghost var items, emailPrompts := MapStep(Portuguese, emails, model), EmailPrompts(Portuguese, emails);
    emailSummaries, prompts, pauses := [], [], 0;
    var i := 0;
    while i < |emails|
      invariant 0 <= i <= |emails|
      invariant emailSummaries == items[..i]
      invariant prompts == emailPrompts[..i]
      invariant pauses == Min(i, |emails| - 1)
    {
      var email := emails[i];
      var text;
      ghost var prompt;
      text, prompt := SummarizeOne(email, model, i);
      prompts := prompts + [prompt];
      assert items[i] == EmailSummary(email.subject, email.from, text);
      emailSummaries := emailSummaries + [EmailSummary(email.subject, email.from, text)];
      PrefixStep(items, i);
      PrefixStep(emailPrompts, i);
      if i < |emails| - 1 {
        pauses := pauses + 1;
      }
      i := i + 1;
    }
    assert emailSummaries == items && prompts == emailPrompts;
  }

  /** A prefix one element longer is the prefix and that element. */
  lemma PrefixStep<T>(s: seq<T>, i: nat)
    requires i < |s|
    ensures s[..i + 1] == s[..i] + [s[i]]
  {
  }

  /** `summarizeMultipleEmails`. It returns the summary, and as ghost outputs
      the prompts it sent and the number of pauses it made. */
  method SummarizeMultipleEmails(emails: seq<Email>, model: Model)
    returns (summary: string, ghost prompts: seq<string>, ghost pauses: nat)
    ensures summary == Summary(Portuguese, emails, model) && prompts == Prompts(Portuguese, emails, model)
    ensures pauses == if |emails| <= 1 then 0 else |emails| - 1
    ensures |emails| > 0 ==> summary != ""
  {
    if |emails| == 0 {
      return NothingToSummarize, [], 0;
    }
    if |emails| == 1 {
      ghost var prompt;
      summary, prompt := SummarizeOne(emails[0], model, 0);
      return summary, [prompt], 0;
    }
    var emailSummaries;
    emailSummaries, prompts, pauses := SummarizeEach(emails, model);
    var consolidatedPrompt := ConsolidatedPrompt(Portuguese, emailSummaries);
    prompts := prompts + [consolidatedPrompt];
    summary := Consolidate(emailSummaries, model(|emails|, consolidatedPrompt));
  }

  /** Every non-empty batch gives a non-empty summary, whatever each call of
      the model answers. */
  lemma SummaryNeverEmpty(w: Wording, emails: seq<Email>, model: Model)
    requires |emails| > 0
    ensures Summary(w, emails, model) != ""
  {
  }

  /** With two or more emails, a blank consolidation answer and a failed
      consolidation call give the same result: the fallback over the per-email
      summaries, which does not depend on the answer. */
  lemma BlankConsolidationIsLikeFailure(w: Wording, emails: seq<Email>, m1: Model, m2: Model, message: string)
    requires |emails| >= 2
    requires forall i | 0 <= i < |emails| :: m1(i, EmailPrompt(w, emails[i])) == m2(i, EmailPrompt(w, emails[i]))
    requires m1(|emails|, ConsolidatedPrompt(w, MapStep(w, emails, m1))).Ok?
    requires IsBlank(m1(|emails|, ConsolidatedPrompt(w, MapStep(w, emails, m1))).value)
    requires m2(|emails|, ConsolidatedPrompt(w, MapStep(w, emails, m2))) == Err(message)
    ensures Summary(w, emails, m1) == Summary(w, emails, m2) == Fallback(MapStep(w, emails, m1))
  {
    assert MapStep(w, emails, m1) == MapStep(w, emails, m2);
  }

  /** Two emails, the first blocked by the safety filters and the second
      summarized: the consolidated prompt carries the "blocked" placeholder as
      entry 1 and the real summary as entry 2, in that order. */
  lemma SafetyBlockedEntryReachesConsolidation(w: Wording, emails: seq<Email>, model: Model, message: string, text: string)
    requires |emails| == 2
    requires model(0, EmailPrompt(w, emails[0])) == Err(message) && Includes(message, "SAFETY")
    requires model(1, EmailPrompt(w, emails[1])) == Ok(text) && !IsBlank(text)
    ensures var items := MapStep(w, emails, model);
      var p := ConsolidatedPrompt(w, items);
      && items[0].summary == SafetyPlaceholder(emails[0].subject)
      && items[1].summary == text
      && OccursAt(PromptEntry(0, items[0]), p, PromptEntryOffset(w, items, 0))
      && OccursAt(PromptEntry(1, items[1]), p, PromptEntryOffset(w, items, 1))
      && PromptEntryOffset(w, items, 0) < PromptEntryOffset(w, items, 1)
  {
    var items := MapStep(w, emails, model);
    ConsolidatedPromptInOrder(w, items, 0);
    ConsolidatedPromptInOrder(w, items, 1);
  }
}
