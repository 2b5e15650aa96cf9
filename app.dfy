/** The page's glue between scraping and generation: the day's three blocks
    become the verse list the conversation runs over, and the persona chosen
    by name is looked up among the registered ones. */
module App {
  import opened Errors
  import opened PyList
  import opened Util
  import opened Saints
  import opened Chat

  /** The three blocks of the day's page, each as its paragraph texts: the
      reading, the gospel and the word of the day. */
  datatype Day = Day(reading: seq<string>, gospel: seq<string>, word: seq<string>)

  /** Unpacking the scraped blocks into reading, gospel and word: the first
      three are taken and any further ones ignored; fewer than three raise an
      IndexError, as the empty list returned by a failed scrape does. */
  function Unpack(data: seq<seq<string>>): (r: Result<Day>)
    ensures r.Success? <==> |data| >= 3
    ensures r.Success? ==>
              r.value.reading == data[0] && r.value.gospel == data[1] && r.value.word == data[2]
    ensures r.Failure? ==> r.error == IndexError("list index out of range")
  {
    if |data| < 3 then Failure(IndexError("list index out of range"))
    else Success(Day(data[0], data[1], data[2]))
  }

  /** The verse list: the reading's verses followed by the gospel's, the whole
      reversed, then the flattened word of the day. So the gospel comes first,
      last verse first, then the reading backwards, and the word closes. */
  function Sequence(day: Day): (verses: seq<string>)
    ensures |verses| == |Verses(day.reading)| + |Verses(day.gospel)| + 1
    ensures verses[|verses| - 1] == Flatten(day.word)
    ensures verses[..|verses| - 1] == Reverse(Verses(day.gospel)) + Reverse(Verses(day.reading))
    ensures Verses(day.gospel) != [] ==>
              verses[0] == Verses(day.gospel)[|Verses(day.gospel)| - 1]
  {
    var extracted := Verses(day.reading) + Verses(day.gospel);
    ReverseConcat(Verses(day.reading), Verses(day.gospel));
    var verses := Reverse(extracted) + [Flatten(day.word)];
    assert verses[..|verses| - 1] == Reverse(extracted);
    verses
  }

  /** The verse list of a scrape: an IndexError when fewer than three blocks
      came back, otherwise the sequenced verses, never an empty list. */
  function DayVerses(data: seq<seq<string>>): (r: Result<seq<string>>)
    ensures r.Success? <==> |data| >= 3
    ensures r.Success? ==> r.value != [] && r.value[|r.value| - 1] == Flatten(data[2])
    ensures r.Failure? ==> r.error.IndexError?
  {
    match Unpack(data)
    case Success(day) => Success(Sequence(day))
    case Failure(e) => Failure(e)
  }

  /** Position `k` of the verse list: the gospel's verses from the last one
      back, then the reading's from the last one back, then the word. */
  lemma {:induction false} SequenceAt(day: Day, k: nat)
    requires k < |Sequence(day)|
    ensures var gospel, reading := Verses(day.gospel), Verses(day.reading);
      Sequence(day)[k] ==
        if k < |gospel| then gospel[|gospel| - 1 - k]
        else if k < |gospel| + |reading| then reading[|gospel| + |reading| - 1 - k]
        else Flatten(day.word)
  {
    var verses := Sequence(day);
    var front := verses[..|verses| - 1];
    if k < |front| {
      assert verses[k] == front[k];
    }
  }

  /** Since the verse list always holds the word of the day, the conversation's
      input check can only reject it for being all empty strings: exactly when
      the word is empty and so is every extracted verse. */
  lemma {:induction false} BlankDayIff(day: Day)
    ensures AllEmpty(Sequence(day)) <==>
              && Flatten(day.word) == ""
              && AllEmpty(Verses(day.reading))
              && AllEmpty(Verses(day.gospel))
  {
    var verses := Sequence(day);
    var reading, gospel := Verses(day.reading), Verses(day.gospel);
    if AllEmpty(verses) {
      SequenceAt(day, |verses| - 1);
      forall k | 0 <= k < |gospel|
        ensures gospel[k] == ""
      {
        SequenceAt(day, |gospel| - 1 - k);
      }
      forall k | 0 <= k < |reading|
        ensures reading[k] == ""
      {
        SequenceAt(day, |gospel| + |reading| - 1 - k);
      }
    }
    if Flatten(day.word) == "" && AllEmpty(reading) && AllEmpty(gospel) {
      forall k | 0 <= k < |verses|
        ensures verses[k] == ""
      {
        SequenceAt(day, k);
      }
    }
  }

  /** A day whose only paragraph is the bare reading prefix still yields a
      verse, the empty one, and with an empty word of the day the whole list is
      blank: a scrape with a marker paragraph can still be rejected. */
  lemma PrefixOnlyDayIsBlank()
    ensures Sequence(Day([ReadingPrefix], [], [])) == ["", ""]
    ensures AllEmpty(Sequence(Day([ReadingPrefix], [], [])))
  {
    ReadingPrefixKeptEmpty();
    assert Verses([]) == [];
    assert Flatten([]) == "";
    assert Reverse([""]) == [""];
  }

  /** The personas offered for selection, in the order offered. */
  const GptSaints := [Augustine, Dorothy, Aquinas]

  /** The names offered in the selection box: one per persona, in order. */
  function Names(saints: seq<Saint>): (names: seq<string>)
    ensures |names| == |saints|
    ensures forall i :: 0 <= i < |saints| ==> names[i] == saints[i].name
  {
    if saints == [] then [] else [saints[0].name] + Names(saints[1..])
  }

  /** The persona for the chosen name: the first persona carrying that name; a
      ValueError when no persona does. */
  function SelectSaint(saints: seq<Saint>, option: string): (r: Result<Saint>)
    ensures r.Success? <==> exists i :: 0 <= i < |saints| && saints[i].name == option
    ensures r.Success? ==> r.value.name == option
    ensures r.Success? ==>
              exists i :: 0 <= i < |saints| && saints[i] == r.value
                && forall j :: 0 <= j < i ==> saints[j].name != option
    ensures r.Failure? ==> r.error.ValueError?
  {
    var names := Names(saints);
    match IndexOf(names, option)
    case Success(i) => Success(saints[i])
    case Failure(e) => Failure(e)
  }

  /** Every registered persona is selected by its own name. */
  lemma EachSaintSelectedByName()
    ensures forall k :: 0 <= k < |GptSaints| ==>
              SelectSaint(GptSaints, GptSaints[k].name) == Success(GptSaints[k])
  {
    var names := Names(GptSaints);
    assert names == [Augustine.name, Dorothy.name, Aquinas.name];
    assert Augustine.name[0] == 'A' && Dorothy.name[0] == 'D' && Aquinas.name[0] == 'T';
  }
}
