# Silicon Saint: the text pipeline, modelled in Dafny

Silicon Saint takes the Vatican's page of daily readings, turns it into an
ordered list of verses and asks a chat-completion service, one verse position
at a time, to write about those verses in the voice of a chosen saint. This
project models that text pipeline and proves what it does:

- **Verse extraction** (`verse_extract`, module `Util`). A scraped block is
  given as the texts of its `<p>` paragraphs. A paragraph is kept when it
  contains one of the markers "A reading", "First reading", "Second reading"
  or "From the". Every occurrence of the three boilerplate prefixes is then
  deleted from it, one prefix after the other. `VerseExtract` is the loop,
  proved equal to the specification function `Verses`.
- **Flattening** (`extract_text`, module `Util`). All paragraph texts are
  concatenated without a separator. `ExtractText` is the loop, proved equal to
  `Flatten`.
- **Python string and list operations** (modules `PyStr` and `PyList`):
  - `in` is `Contains`, through `Find`.
  - `str.replace` is `ReplaceAll`. It is proved equal to a split-then-join
    reference definition.
  - `[::-1]` is `Reverse`.
  - `list.index` is `IndexOf`.
- **Sequencing and persona lookup** (module `App`), from the page script:
  - The three scraped blocks are unpacked.
  - The reading's verses and the gospel's verses are concatenated.
  - That list is reversed, and the flattened word of the day is appended.
  - The persona is chosen by its name.
- **Prompt composition and the conversation loop** (module `Chat`):
  - `Compose` picks the request for a position. Position 0 explains the
    first verse and asks to tie in contemporary events. A middle position
    explains its verse and relates it to the first. The last position is
    always the closing request for the persona's thoughts on the Pope's words
    and a prayer.
  - `Render` produces the exact system and user messages of the source's
    templates, indentation included.
  - The completion service is an oracle: a function from a call, identified
    by its position and carrying the message pair, to a reply. The reply
    either fails or carries choices.
  - `GenerateConversation` reads the first choice. Any failure becomes a
    ValueError.
  - `Conversation` rejects a list that is empty or all empty strings before
    anything is generated. Otherwise it generates once per position, in
    increasing order, and the first failure ends the run.

Every position of the list gets exactly one request, in list order. Marker
matching is case-sensitive, so "Second reading from the" does not contain
"From the". Kept paragraphs that end up empty remain in the list.

Module layout: `Errors` (Python's ValueError and IndexError, and a result
type), `PyStr`, `PyList`, `Saints` (the persona record and the three
personas), `Util`, `Chat` and `App`.

## Model

| member | source | states |
|---|---|---|
| Util.IsVerseParagraph | app/src/util.py:63-68 | holds iff the text contains one of the four markers; its properties are stated by `MarkedPositions` and `VersesAreMarkedParagraphs` |
| Util.Verses | app/src/util.py:58-76 | the specification of the extraction; `VersesAreMarkedParagraphs` states it is the stripped marker paragraphs in order, and `VerseExtract` is proved equal to it |
| Util.VerseExtract | app/src/util.py:53-76 | the loop returns exactly `Verses(paragraphs)`: marker paragraphs, prefixes deleted, in order |
| Util.VersesAreMarkedParagraphs | app/src/util.py:58-76 | the verse list has one entry per marker position, in increasing position order; it is the stripped paragraph there; it is never longer than the paragraph list |
| Util.MarkedPositions | app/src/util.py:60-68 | positions are increasing and in range; a position is listed iff its paragraph contains a marker |
| Util.NoMarkerNoVerses | app/src/util.py:58-76 | the verse list is empty (not an error) iff no paragraph contains a marker |
| Util.VersesOfOne | app/src/util.py:60-74 | a one-paragraph block yields its stripped text when it holds a marker, otherwise nothing |
| Util.StripPrefixes | app/src/util.py:70-72 | the stripped text is never longer; it equals the paragraph iff none of the three prefixes occurs in it |
| Util.LeadingReadingPrefixRemoved | app/src/util.py:67-74 | a paragraph that starts with "A reading from the " is kept, and loses exactly that prefix when the rest holds no prefix |
| Util.DeleteWhole | app/src/util.py:70-72 | deleting a prefix from the prefix itself leaves "" |
| Util.DeleteAbsent | app/src/util.py:70-72 | deleting a prefix whose first character does not occur leaves the text unchanged |
| Util.ReadingPrefixKeptEmpty | app/src/util.py:70-74 | a paragraph that is exactly "A reading from the " is kept as "" |
| Util.FirstReadingPrefixKeptEmpty | app/src/util.py:70-74 | a paragraph that is exactly "First reading from the " is kept as "" |
| Util.SecondReadingPrefixKeptEmpty | app/src/util.py:70-74 | a paragraph that is exactly "Second reading from the " is kept as "" |
| Util.ExtractText | app/src/util.py:79-88 | the loop returns exactly `Flatten(paragraphs)` |
| Util.Flatten | app/src/util.py:81-88 | the length of the text is the sum of the paragraph lengths, so it is "" for no paragraphs |
| Util.TotalLengthConcat | app/src/util.py:85-86 | the summed length distributes over concatenation |
| Util.FlattenConcat | app/src/util.py:85-86 | flattening distributes over concatenation of paragraph lists |
| Util.FlattenPlacesParagraph | app/src/util.py:85-88 | paragraph `j` appears unchanged in the text, right after the paragraphs before it |
| PyStr.Find | app/src/util.py:63-68 | the result is -1 or an in-range start position |
| PyStr.FindFirst | app/src/util.py:63-68 | `Find` gives the first occurrence; when it gives -1, the pattern occurs nowhere |
| PyStr.ContainsIff | app/src/util.py:63-68 | `in` holds iff the pattern occurs at some position |
| PyStr.Contains | app/src/util.py:63-68 | Python's `in`; `ContainsIff` states it holds iff the pattern occurs at some position |
| PyStr.ReplaceAll | app/src/util.py:70-72 | Python's `str.replace`; `ReplaceIsJoinOfSplit` ties it to split-then-join, and `ReplaceAllLength` and `ReplaceLeading` give its effect |
| PyStr.ReplaceAllLength | app/src/util.py:70-72 | without an occurrence the text is unchanged; deleting never lengthens; deleting an occurring pattern shortens |
| PyStr.DeleteUnchangedIff | app/src/util.py:70-72 | deleting a pattern leaves the text unchanged iff the pattern does not occur |
| PyStr.ReplaceLeading | app/src/util.py:70-72 | a leading occurrence is replaced and the scan resumes right after it |
| PyStr.ReplaceCopiesUpTo | app/src/util.py:70-72 | text before the first occurrence is copied unchanged |
| PyStr.ReplaceIsJoinOfSplit | app/src/util.py:70-72 | replacing every occurrence equals splitting at the pattern and joining with the replacement |
| PyStr.SplitPiecesFree | app/src/util.py:70-72 | no piece of the split contains the separator |
| PyList.Reverse | app/main.py:113 | same length; element `k` is element `n-1-k` of the input |
| PyList.ReverseConcat | app/main.py:112-113 | reversing a concatenation concatenates the reversed parts in swapped order |
| PyList.IndexOf | app/main.py:137 | succeeds iff the value occurs; returns its first position; otherwise a ValueError |
| App.Unpack | app/main.py:110 | succeeds iff at least three blocks were scraped, taking the first three in order; otherwise an IndexError, as for the empty list of a failed scrape |
| App.Sequence | app/main.py:112-113 | length is the sum of both extractions plus one; the last entry is the flattened word; the entries before it are the reversed gospel verses followed by the reversed reading verses; the first entry is the last gospel verse when there is one |
| App.SequenceAt | app/main.py:112-113 | entry `k` of the verse list, by range: the gospel's, then the reading's verses back to front, then the word |
| App.DayVerses | app/main.py:110-113 | an IndexError iff fewer than three blocks; otherwise a non-empty list ending with the flattened word |
| App.BlankDayIff | app/main.py:112-113 | the list is all empty strings iff the word and every extracted verse are empty, so the conversation check can only fire that way |
| App.PrefixOnlyDayIsBlank | app/main.py:112-113 | a reading consisting of only the bare prefix, with no gospel and no word, gives ["", ""], which is rejected |
| App.Names | app/main.py:130 | one name per persona, in persona order |
| App.SelectSaint | app/main.py:130-137 | succeeds iff some persona carries the name; the selection carries that name and is the first such persona; otherwise a ValueError |
| App.EachSaintSelectedByName | app/main.py:130-137 | each of the three offered personas is selected by its own name |
| Chat.Compose | app/src/chat.py:36-62 | the request for a position: the closing one at the last position, the opening one at position 0, a relating one elsewhere; its content is stated by `ComposeContents`, `StructuredUserText` and `ClosingOverridesAll` |
| Chat.SystemContent | app/src/chat.py:47-50 | the system template; `SystemContents` and `SystemPromptOnlyFromSaint` state it holds the name and traits and depends on nothing else |
| Chat.PrayerContent | app/src/chat.py:60-65 | the closing template; `PrayerContents` states it quotes the verse and asks for a prayer |
| Chat.UserContent | app/src/chat.py:52-65 | the structured template, replaced by the closing one for a closing request; stated by `StructuredContents`, `PrayerContents` and `StructuredUserText` |
| Chat.Render | app/src/chat.py:47-73 | the system and user messages sent for a prompt, in that order; stated by `ComposeContents` |
| Chat.StructuredUserText | app/src/chat.py:39-57 | before the last position the user message is exactly the structured template: at position 0 it explains verse 0 and carries the contemporary-events request; at a middle position it explains its verse, relates it to verse 0, and leaves the writing line empty |
| Chat.ComposeContents | app/src/chat.py:34-65 | the system message holds the name and traits; the user message always quotes the verse at the position; the last position asks for a prayer; any other position asks for the structure and "Explain {verse} in your own words."; position 0 adds the contemporary-events request; a middle position relates its verse to verse 0 |
| Chat.SystemContents | app/src/chat.py:47-50 | the system message contains the persona's name and traits |
| Chat.StructuredContents | app/src/chat.py:39-57 | the structured message contains the structure request and the explanation of its verse; at the opening it adds the contemporary-events request, elsewhere the relation to the gospel |
| Chat.PrayerContents | app/src/chat.py:60-65 | the closing message quotes the verse and asks for a prayer |
| Chat.SystemPromptOnlyFromSaint | app/src/chat.py:47-50 | the system message is the same for any two calls whose personas agree on name and traits, whatever the positions and verses |
| Chat.ClosingOverridesAll | app/src/chat.py:60-65 | at the last position both messages depend only on the persona and the last verse, and the user message is the closing one, even for a one-element list |
| Chat.StructuredDependsOnOwnAndFirst | app/src/chat.py:36-57 | before the last position the messages depend only on verse 0 and the verse at the position |
| Chat.ReplyText | app/src/chat.py:67-83 | success iff the call succeeded with at least one choice, returning the first one unchanged; otherwise a ValueError |
| Chat.FailureMessage | app/src/chat.py:79-81 | every failure message starts with "Failed to generate conversation: ", followed by the call's own description for a failed call |
| Chat.GenerateConversation | app/src/chat.py:34-83 | one call for the position with the composed messages; every failure is a ValueError whose message starts with "Failed to generate conversation: " |
| Chat.AllEmpty | app/src/chat.py:12 | every verse is the empty string, vacuously for no verses; `Conversation` rejects exactly such input |
| Chat.Conversation | app/src/chat.py:10-31 | an empty or all-empty list gives the ValueError before any request; otherwise request `i` is the prompt composed for position `i`; the texts shown are the successful generations, in order; success with "" iff every position succeeded; otherwise the result is the first failing position's error |
| Chat.GenerateEach | app/src/chat.py:15-31 | the loop alone: one request per position in increasing order, each shown text the generation at its position, stopping at and returning the first failure |

## Left out

- The Streamlit user interface is not modelled: page setup, tabs, columns, images, spinners and expanders. Displaying a text is modelled only as appending it to the `written` output of `Conversation`.
- The pause between generations (`time.sleep(3)`) is not modelled. It has no effect on the results.
- Scraping is not modelled: the HTTP requests, Streamlit's memoisation and the saint-of-the-day page. A scrape is given as its list of blocks, and `App.Unpack` covers the empty list a failed request returns.
- HTML parsing is not modelled. A block is given as the texts that `find_all("p")` and `get_text()` would produce.
- The chat-completion call is a function parameter. It is given the position of the call besides the messages, so calls at different positions are independent events: equal messages sent from two positions may get different replies. The model name and `temperature=0.7` are not represented.
- Chat.GenerateConversation: every exception from the service becomes a `Failed` reply carrying its description. The source's `str(e)` formatting is not modelled.
- The date picker, the future-date warning and the API key handling are not modelled: they are user interface, clock and secrets.
- `conversation_ui` and `prayer` are imported by app/main.py:8 from `src.chat`, but that file does not define them. Their behaviour is not part of this model.
- PyList.IndexOf: the ValueError message is the fixed text "is not in list". Python also quotes the missing value in front of it.
- Chat.Compose: positions are natural numbers below the list length. Python's negative indices never arise, because the loop only passes `0 .. len(verses)-1`.
- PyStr.ReplaceAll requires a non-empty pattern. Python's replacement of an empty pattern is not modelled; the source only deletes its three fixed prefixes.
- `Saint.traits` is annotated as a list of strings, but every persona stores one string there and the prompt interpolates it as text. It is modelled as a string.
