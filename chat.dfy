/** Prompt composition and the per-position driver. The completion service is
    an oracle passed in as a function from a call, identified by its position
    and carrying the prompt pair, to the reply. */
module Chat {
  import opened Errors
  import opened PyStr
  import opened Saints

  /** The two messages sent to the completion service, in the order sent:
      the system message, then the user message. */
  datatype Messages = Messages(system: string, user: string)

  /** What the user message asks for. At position 0 the first verse (the
      gospel) is explained with a contemporary-events request; at a later
      position the verse there is explained and related to the gospel; the
      last position asks instead for the persona's thoughts and a prayer. */
  datatype Request =
    | Opening(gospel: string)
    | Relating(verse: string, gospel: string)
    | Closing(verse: string)

  /** The prompt for one generation: who speaks and what is asked. */
  datatype Prompt = Prompt(saint: Saint, request: Request)

  /** What the completion service gives back: a failure with its description,
      or the contents of the choices it returned, in order. */
  datatype Reply = Failed(reason: string) | Replied(choices: seq<string>)

  /** The completion service: the reply to the call made for a position with
      the given messages. Each call of a run is its own event, so two positions
      sending the same messages may still get different replies. */
  type Service = (nat, Messages) -> Reply

  /** A line break followed by the eight-space indent of the source's
      triple-quoted templates. */
  const Indent := "\n        "

  const SystemLead := Indent + "You are "
  const SystemMiddle := ". Talk in the first person." + Indent
    + "Use these traits to influence your style, do not mention directly: "
  const SystemEnd := "." + Indent

  const StructureRequest := "Use the following structure"
  const StructureLead :=
    Indent + StructureRequest + (", separate each section with a newline:" + Indent + Indent)

  const Explain := "Explain "
  const OwnWords := " in your own words."
  const RelateRequest := "How does it relate to "
  const CommonThemes := ". Expand on the common themes."

  /** The request added to the opening prompt only. */
  const TieRequest :=
    "Tie contemporary events in relation to your life to the verse, offering quotes from your writings."

  const PrayerLead := Indent + "Offer the thoughts of yourself in character on the words of the Pope: "
  const PrayerRequest := "a prayer for the reader"
  const PrayerTail := Indent + "Ponder on the significance of these words for the future and offer guidance "
    + Indent + "and " + PrayerRequest + Indent

  /** The words that open the message of every generation failure. */
  const FailurePrefix := "Failed to generate conversation: "

  /** What an index past the end of the choices raises. */
  const NoChoiceReason := "list index out of range"

  /** The message of the error raised on input without text. */
  const EmptyInputMessage := "Input list cannot be empty or contain only empty strings."

  /** The system message: the persona's name and traits, and nothing else. */
  function SystemContent(saint: Saint): (system: string)
  {
    SystemLead + saint.name + SystemMiddle + saint.traits + SystemEnd
  }

  /** The explanation request: the gospel alone at the opening, otherwise
      the verse related back to the gospel. */
  function VerseInput(request: Request): (verseInput: string)
    requires !request.Closing?
  {
    match request
    case Opening(gospel) => Explain + gospel + OwnWords
    case Relating(verse, gospel) =>
      Explain + verse + OwnWords + (" " + (RelateRequest + gospel) + CommonThemes)
  }

  /** The writing request: the contemporary-events request at the opening, empty elsewhere. */
  function WritingInput(request: Request): (writingInput: string)
  {
    if request.Opening? then TieRequest else ""
  }

  /** The structured user message around the two requests. */
  function StructuredContent(verseInput: string, writingInput: string): (user: string)
  {
    StructureLead + verseInput + (Indent + writingInput + Indent)
  }

  /** The closing user message: the persona's thoughts on the Pope's words, and a prayer. */
  function PrayerContent(verse: string): (user: string)
  {
    PrayerLead + verse + PrayerTail
  }

  /** The user message for a request. */
  function UserContent(request: Request): (user: string)
  {
    if request.Closing? then PrayerContent(request.verse)
    else StructuredContent(VerseInput(request), WritingInput(request))
  }

  /** The messages a prompt is sent as. */
  function Render(prompt: Prompt): (messages: Messages)
  {
    Messages(SystemContent(prompt.saint), UserContent(prompt.request))
  }

  /** The prompt for one position: the structured request, overridden by the
      closing one at the last position, even when that is also position 0. */
  function Compose(position: nat, verses: seq<string>, saint: Saint): (prompt: Prompt)
    requires position < |verses|
  {
    var gospel := verses[0];
    var request :=
      if position == |verses| - 1 then Closing(verses[position])
      else if position == 0 then Opening(gospel)
      else Relating(verses[position], gospel);
    Prompt(saint, request)
  }

  /** The system message names the persona and carries its traits; the user
      message always quotes the verse at the position; the last position asks
      for a prayer, every other one to explain its verse in the structured
      form; the opening one adds the contemporary-events request and a middle
      one relates its verse to the first. */
  lemma ComposeContents(position: nat, verses: seq<string>, saint: Saint)
    requires position < |verses|
    ensures var messages := Render(Compose(position, verses, saint));
      && Contains(messages.system, saint.name)
      && Contains(messages.system, saint.traits)
      && Contains(messages.user, verses[position])
      && (position == |verses| - 1 ==> Contains(messages.user, PrayerRequest))
      && (position < |verses| - 1 ==>
            && Contains(messages.user, StructureRequest)
            && Contains(messages.user, Explain + verses[position] + OwnWords))
      && (position == 0 < |verses| - 1 ==> Contains(messages.user, TieRequest))
      && (0 < position < |verses| - 1 ==> Contains(messages.user, RelateRequest + verses[0]))
  {
    var request := Compose(position, verses, saint).request;
    SystemContents(saint);
    if request.Closing? {
      PrayerContents(request.verse);
    } else {
      StructuredContents(request);
    }
  }

  lemma SystemContents(saint: Saint)
    ensures Contains(SystemContent(saint), saint.name)
    ensures Contains(SystemContent(saint), saint.traits)
  {
    ContainsSelf(saint.name);
    ContainsBefore(SystemLead, saint.name, saint.name);
    ContainsAfter(SystemLead + saint.name, SystemMiddle, saint.name);
    ContainsAfter(SystemLead + saint.name + SystemMiddle, saint.traits, saint.name);
    ContainsAfter(SystemLead + saint.name + SystemMiddle + saint.traits, SystemEnd, saint.name);
    ContainsSpliced(SystemLead + saint.name + SystemMiddle, saint.traits, SystemEnd);
  }

  lemma PrayerContents(verse: string)
    ensures Contains(PrayerContent(verse), verse)
    ensures Contains(PrayerContent(verse), PrayerRequest)
  {
    ContainsSpliced(PrayerLead, verse, PrayerTail);
    var ponder := Indent + "Ponder on the significance of these words for the future and offer guidance "
      + Indent + "and ";
    ContainsSpliced(ponder, PrayerRequest, Indent);
    ContainsBefore(PrayerLead + verse, PrayerTail, PrayerRequest);
  }

  lemma StructuredContents(request: Request)
    requires !request.Closing?
    ensures var user := UserContent(request);
      var verse := if request.Opening? then request.gospel else request.verse;
      && Contains(user, StructureRequest)
      && Contains(user, verse)
      && Contains(user, Explain + verse + OwnWords)
      && (request.Opening? ==> Contains(user, TieRequest))
      && (request.Relating? ==> Contains(user, RelateRequest + request.gospel))
  {
    var verseInput, writingInput := VerseInput(request), WritingInput(request);
    var tail := Indent + writingInput + Indent;
    ContainsSpliced(Indent, StructureRequest, ", separate each section with a newline:" + Indent + Indent);
    ContainsAfter(StructureLead, verseInput, StructureRequest);
    ContainsAfter(StructureLead + verseInput, tail, StructureRequest);
    var verse := if request.Opening? then request.gospel else request.verse;
    var explained := Explain + verse + OwnWords;
    ContainsSpliced(Explain, verse, OwnWords);
    ContainsSelf(explained);
    if request.Opening? {
      ContainsSpliced(Indent, TieRequest, Indent);
      ContainsBefore(StructureLead + verseInput, tail, TieRequest);
    } else {
      var relate := RelateRequest + request.gospel;
      var relation := " " + relate + CommonThemes;
      ContainsSpliced(" ", relate, CommonThemes);
      ContainsBefore(explained, relation, relate);
      ContainsAfter(explained, relation, explained);
      ContainsAfter(explained, relation, verse);
      ContainsWithin(StructureLead, verseInput, tail, relate);
    }
    ContainsWithin(StructureLead, verseInput, tail, explained);
    ContainsWithin(StructureLead, verseInput, tail, verse);
  }

  /** The system message depends on the persona's name and traits only: not on
      the position, the verses or the persona's picture. */
  lemma SystemPromptOnlyFromSaint(
    position: nat, verses: seq<string>, saint: Saint,
    position': nat, verses': seq<string>, saint': Saint)
    requires position < |verses| && position' < |verses'|
    requires saint.name == saint'.name && saint.traits == saint'.traits
    ensures Render(Compose(position, verses, saint)).system
         == Render(Compose(position', verses', saint')).system
  {
  }

  /** At the last position the user message is the closing message on the last
      verse, whatever the other verses are, and even when the last position is
      also the first. */
  lemma ClosingOverridesAll(verses: seq<string>, verses': seq<string>, saint: Saint)
    requires verses != [] && verses' != []
    requires verses[|verses| - 1] == verses'[|verses'| - 1]
    ensures Render(Compose(|verses| - 1, verses, saint)) == Render(Compose(|verses'| - 1, verses', saint))
    ensures Render(Compose(|verses| - 1, verses, saint)).user == PrayerContent(verses[|verses| - 1])
  {
  }

  /** Before the last position, the user message at position 0 depends on the
      first verse only, and at a middle position on its own verse and the first. */
  lemma StructuredDependsOnOwnAndFirst(
    position: nat, verses: seq<string>, verses': seq<string>, saint: Saint)
    requires position < |verses| - 1 && position < |verses'| - 1
    requires verses[0] == verses'[0] && verses[position] == verses'[position]
    ensures Render(Compose(position, verses, saint)) == Render(Compose(position, verses', saint))
  {
  }

  /** The exact user message before the last position: at position 0 the
      gospel explained, with the contemporary-events request on the writing
      line; at a middle position its verse explained and related to the
      gospel, with the writing line left empty. */
  lemma StructuredUserText(position: nat, verses: seq<string>, saint: Saint)
    requires position < |verses| - 1
    ensures var user := Render(Compose(position, verses, saint)).user;
      && (position == 0 ==> user == StructuredContent(Explain + verses[0] + OwnWords, TieRequest))
      && (0 < position ==>
            user == StructuredContent(
              Explain + verses[position] + OwnWords + (" " + (RelateRequest + verses[0]) + CommonThemes),
              ""))
  {
  }

  /** Reading the first choice's content out of a reply: a failed call, or a
      reply without choices, becomes a ValueError whose message begins with
      the failure prefix and carries the reason. */
  function ReplyText(reply: Reply): (r: Result<string>)
    ensures r.Success? <==> reply.Replied? && reply.choices != []
    ensures r.Success? ==> r.value == reply.choices[0]
    ensures r.Failure? ==> r.error.ValueError?
  {
    match reply
    case Failed(reason) => Failure(ValueError(FailurePrefix + reason))
    case Replied(choices) =>
      if choices == [] then Failure(ValueError(FailurePrefix + NoChoiceReason))
      else Success(choices[0])
  }

  /** A failure's message begins with the failure prefix and, for a failed
      call, goes on with the call's own description. */
  lemma FailureMessage(reply: Reply)
    ensures ReplyText(reply).Failure? ==> FailurePrefix <= ReplyText(reply).error.message
    ensures reply.Failed? ==> ReplyText(reply).error.message == FailurePrefix + reply.reason
  {
  }

  /** `generate_conversation`: one oracle call with the prompt pair composed
      for the position; any failure is raised as a ValueError, otherwise the
      first choice's content is returned unchanged. */
  function GenerateConversation(
    position: nat, verses: seq<string>, saint: Saint, oracle: Service): (r: Result<string>)
    requires position < |verses|
    ensures r.Failure? ==> r.error.ValueError? && FailurePrefix <= r.error.message
  {
    var reply := oracle(position, Render(Compose(position, verses, saint)));
    FailureMessage(reply);
    ReplyText(reply)
  }

  /** Every verse is the empty string (vacuously so for no verses). */
  predicate AllEmpty(verses: seq<string>)
  {
    forall i :: 0 <= i < |verses| ==> verses[i] == ""
  }

  /** `conversation`: rejects input without text before generating anything,
      then generates once per position, in increasing order, showing each
      result; the first failure propagates and ends the run. `asked` lists the
      prompts sent to the completion service, `written` the texts shown. */
  method Conversation(verses: seq<string>, saint: Saint, oracle: Service)
    returns (result: Result<string>, asked: seq<Prompt>, written: seq<string>)
    ensures AllEmpty(verses) ==> result == Failure(ValueError(EmptyInputMessage)) && asked == []
    ensures |written| <= |asked| <= |verses|
    ensures forall i :: 0 <= i < |asked| ==> asked[i] == Compose(i, verses, saint)
    ensures forall i :: 0 <= i < |written| ==>
              GenerateConversation(i, verses, saint, oracle) == Success(written[i])
    ensures result.Success? <==> !AllEmpty(verses) && |written| == |verses|
    ensures result.Success? ==> result.value == "" && |asked| == |verses|
    ensures !AllEmpty(verses) && result.Failure? ==>
              && |asked| == |written| + 1
              && result == GenerateConversation(|written|, verses, saint, oracle)
  {
    if |verses| == 0 || AllEmpty(verses) {
      return Failure(ValueError(EmptyInputMessage)), [], [];
    }
    result, asked, written := GenerateEach(verses, saint, oracle);
  }

  /** Appending the prompt for the next position keeps the prompts sent those
      of their positions. */
  lemma ComposedNext(asked: seq<Prompt>, verses: seq<string>, saint: Saint)
    requires |asked| < |verses|
    requires forall i :: 0 <= i < |asked| ==> asked[i] == Compose(i, verses, saint)
    ensures forall i :: 0 <= i < |asked| + 1 ==>
              (asked + [Compose(|asked|, verses, saint)])[i] == Compose(i, verses, saint)
  {
  }

  /** The loop of `conversation`: one generation per position, in increasing
      order, stopping at the first failure. */
  method GenerateEach(verses: seq<string>, saint: Saint, oracle: Service)
    returns (result: Result<string>, asked: seq<Prompt>, written: seq<string>)
    ensures |written| <= |asked| <= |verses|
    ensures forall i :: 0 <= i < |asked| ==> asked[i] == Compose(i, verses, saint)
    ensures forall i :: 0 <= i < |written| ==>
              GenerateConversation(i, verses, saint, oracle) == Success(written[i])
    ensures result.Success? <==> |written| == |verses|
    ensures result.Success? ==> result.value == "" && |asked| == |verses|
    ensures result.Failure? ==>
              && |asked| == |written| + 1
              && result == GenerateConversation(|written|, verses, saint, oracle)
  {
    asked, written := [], [];
    for position := 0 to |verses|
      invariant |asked| == |written| == position
      invariant forall i :: 0 <= i < position ==> asked[i] == Compose(i, verses, saint)
      invariant forall i :: 0 <= i < position ==>
                  GenerateConversation(i, verses, saint, oracle) == Success(written[i])
    {
      ComposedNext(asked, verses, saint);
      asked := asked + [Compose(position, verses, saint)];
      var generated := GenerateConversation(position, verses, saint, oracle);
      if generated.Failure? {
        return generated, asked, written;
      }
      ghost var shown := written;
      written := written + [generated.value];
      assert forall i :: 0 <= i < position ==> written[i] == shown[i];
    }
    result := Success("");
  }
}
