/** Verse extraction and flattening of a scraped block. A block is given as the
    texts of its `<p>` paragraphs, in document order: what the HTML parser's
    `find_all("p")` followed by `get_text()` yields. */
module Util {
  import opened PyStr

  /** The boilerplate prefixes deleted from a verse, in the order they are deleted. */
  const ReadingPrefix := "A reading from the "
  const FirstReadingPrefix := "First reading from the "
  const SecondReadingPrefix := "Second reading from the "

  /** A paragraph is a verse when its text contains one of the four markers,
      anywhere and case-sensitively. */
  predicate IsVerseParagraph(text: string)
  {
    || Contains(text, "A reading")
    || Contains(text, "First reading")
    || Contains(text, "Second reading")
    || Contains(text, "From the")
  }

  /** The text of a verse: every occurrence (not only a leading one) of each
      prefix deleted, one prefix after the other. It never grows, and it is the
      paragraph itself exactly when no prefix occurs in it. */
  function StripPrefixes(text: string): (verse: string)
    ensures |verse| <= |text|
    ensures verse == text <==>
              && !Contains(text, ReadingPrefix)
              && !Contains(text, FirstReadingPrefix)
              && !Contains(text, SecondReadingPrefix)
  {
    var once := ReplaceAll(text, ReadingPrefix, "");
    var twice := ReplaceAll(once, FirstReadingPrefix, "");
    ReplaceAllLength(text, ReadingPrefix, "");
    ReplaceAllLength(once, FirstReadingPrefix, "");
    ReplaceAllLength(twice, SecondReadingPrefix, "");
    ReplaceAll(twice, SecondReadingPrefix, "")
  }

  /** The verse list built from the paragraphs: one stripped entry per marker
      paragraph, in paragraph order. */
  function Verses(paragraphs: seq<string>): (verses: seq<string>)
    decreases |paragraphs|
  {
    if paragraphs == [] then []
    else
      var n := |paragraphs| - 1;
      Verses(paragraphs[..n])
        + if IsVerseParagraph(paragraphs[n]) then [StripPrefixes(paragraphs[n])] else []
  }

  /** The positions of the marker paragraphs: increasing, and containing every
      position whose paragraph is a marker paragraph and no other. */
  function MarkedPositions(paragraphs: seq<string>): (positions: seq<nat>)
    ensures forall k :: 0 <= k < |positions| ==>
              positions[k] < |paragraphs| && IsVerseParagraph(paragraphs[positions[k]])
    ensures forall k, l :: 0 <= k < l < |positions| ==> positions[k] < positions[l]
    ensures forall j :: 0 <= j < |paragraphs| && IsVerseParagraph(paragraphs[j]) ==> j in positions
    decreases |paragraphs|
  {
    if paragraphs == [] then []
    else
      var n := |paragraphs| - 1;
      var before := MarkedPositions(paragraphs[..n]);
      assert forall j :: 0 <= j < n ==> paragraphs[..n][j] == paragraphs[j];
      before + if IsVerseParagraph(paragraphs[n]) then [n] else []
  }

  /** The verse list is the marker paragraphs, stripped, in their order: an
      order-preserving selection from the paragraphs, so never longer. */
  lemma {:induction false} VersesAreMarkedParagraphs(paragraphs: seq<string>)
    ensures |Verses(paragraphs)| == |MarkedPositions(paragraphs)| <= |paragraphs|
    ensures forall k :: 0 <= k < |Verses(paragraphs)| ==>
              Verses(paragraphs)[k] == StripPrefixes(paragraphs[MarkedPositions(paragraphs)[k]])
    decreases |paragraphs|
  {
    if paragraphs != [] {
      var n := |paragraphs| - 1;
      VersesAreMarkedParagraphs(paragraphs[..n]);
      forall k | 0 <= k < |MarkedPositions(paragraphs[..n])|
        ensures paragraphs[..n][MarkedPositions(paragraphs[..n])[k]]
                == paragraphs[MarkedPositions(paragraphs[..n])[k]]
      {
      }
    }
  }

  /** Without a marker paragraph the verse list is empty (and not an error);
      with one it is not. */
  lemma NoMarkerNoVerses(paragraphs: seq<string>)
    ensures Verses(paragraphs) == [] <==>
              forall j :: 0 <= j < |paragraphs| ==> !IsVerseParagraph(paragraphs[j])
  {
    VersesAreMarkedParagraphs(paragraphs);
    var positions := MarkedPositions(paragraphs);
    if positions != [] {
      assert IsVerseParagraph(paragraphs[positions[0]]);
    }
  }

  /** A one-paragraph block yields the paragraph's verse when it is a marker
      paragraph and nothing otherwise. */
  lemma VersesOfOne(text: string)
    ensures Verses([text]) == if IsVerseParagraph(text) then [StripPrefixes(text)] else []
  {
    assert [text][..0] == [];
  }

  /** Deleting a prefix from the prefix itself leaves nothing. */
  lemma DeleteWhole(prefix: string)
    requires prefix != []
    ensures ReplaceAll(prefix, prefix, "") == ""
  {
    ReplaceLeading(prefix, "", "");
    assert prefix + "" == prefix;
  }

  /** Deleting a prefix that cannot occur leaves the text as it is. */
  lemma DeleteAbsent(text: string, prefix: string)
    requires prefix != [] && prefix[0] !in text
    ensures ReplaceAll(text, prefix, "") == text
  {
    if Contains(text, prefix) {
      ContainsFirstChar(text, prefix);
    }
    ReplaceAllLength(text, prefix, "");
  }

  /** A paragraph that is exactly "A reading from the " is kept, as "". */
  lemma ReadingPrefixKeptEmpty()
    ensures Verses([ReadingPrefix]) == [""]
  {
    assert "A reading" <= ReadingPrefix;
    DeleteWhole(ReadingPrefix);
    VersesOfOne(ReadingPrefix);
  }

  /** A paragraph that is exactly "First reading from the " is kept, as "". */
  lemma FirstReadingPrefixKeptEmpty()
    ensures Verses([FirstReadingPrefix]) == [""]
  {
    assert "First reading" <= FirstReadingPrefix;
    DeleteAbsent(FirstReadingPrefix, ReadingPrefix);
    DeleteWhole(FirstReadingPrefix);
    VersesOfOne(FirstReadingPrefix);
  }

  /** A paragraph that is exactly "Second reading from the " is kept, as "". */
  lemma SecondReadingPrefixKeptEmpty()
    ensures Verses([SecondReadingPrefix]) == [""]
  {
    assert "Second reading" <= SecondReadingPrefix;
    var text := SecondReadingPrefix;
    assert 'A' !in text && 'F' !in text;
    DeleteAbsent(text, ReadingPrefix);
    DeleteAbsent(text, FirstReadingPrefix);
    DeleteWhole(text);
    assert StripPrefixes(text) == "";
    assert Contains(text, "Second reading");
    VersesOfOne(text);
  }

  /** A leading "A reading from the " is removed, and the rest of a paragraph
      that holds no further prefix is kept as it is. */
  lemma LeadingReadingPrefixRemoved(rest: string)
    requires !Contains(rest, ReadingPrefix)
    requires !Contains(rest, FirstReadingPrefix)
    requires !Contains(rest, SecondReadingPrefix)
    ensures IsVerseParagraph(ReadingPrefix + rest)
    ensures StripPrefixes(ReadingPrefix + rest) == rest
  {
    assert "A reading" <= ReadingPrefix + rest;
    ReplaceLeading(ReadingPrefix, rest, "");
    ReplaceAllLength(rest, ReadingPrefix, "");
    ReplaceAllLength(rest, FirstReadingPrefix, "");
    ReplaceAllLength(rest, SecondReadingPrefix, "");
    assert ReplaceAll(ReadingPrefix + rest, ReadingPrefix, "") == rest;
  }

  /** `verse_extract`: walks the paragraphs in order, keeps the marker ones and
      deletes the three prefixes from each kept text before appending it. */
  method VerseExtract(paragraphs: seq<string>) returns (verseList: seq<string>)
    ensures verseList == Verses(paragraphs)
  {
    verseList := [];
    for i := 0 to |paragraphs|
      invariant verseList == Verses(paragraphs[..i])
    {
      var text := paragraphs[i];
      if
        || Contains(text, "A reading")
        || Contains(text, "First reading")
        || Contains(text, "Second reading")
        || Contains(text, "From the")
      {
        text := ReplaceAll(text, ReadingPrefix, "");
        text := ReplaceAll(text, FirstReadingPrefix, "");
        text := ReplaceAll(text, SecondReadingPrefix, "");
        verseList := verseList + [text];
      }
      assert paragraphs[..i + 1][..i] == paragraphs[..i];
    }
    assert paragraphs[..|paragraphs|] == paragraphs;
  }

  /** The sum of the paragraph lengths. */
  function TotalLength(paragraphs: seq<string>): (total: nat)
  {
    if paragraphs == [] then 0 else |paragraphs[0]| + TotalLength(paragraphs[1..])
  }

  lemma {:induction false} TotalLengthConcat(a: seq<string>, b: seq<string>)
    ensures TotalLength(a + b) == TotalLength(a) + TotalLength(b)
    decreases |a|
  {
    if a == [] {
      assert a + b == b;
    } else {
      assert (a + b)[1..] == a[1..] + b;
      TotalLengthConcat(a[1..], b);
    }
  }

  /** The text of all paragraphs run together, with no separator and no
      filtering; its length is the sum of theirs. */
  function Flatten(paragraphs: seq<string>): (text: string)
    ensures |text| == TotalLength(paragraphs)
    decreases |paragraphs|
  {
    if paragraphs == [] then ""
    else
      var n := |paragraphs| - 1;
      TotalLengthConcat(paragraphs[..n], [paragraphs[n]]);
      assert paragraphs[..n] + [paragraphs[n]] == paragraphs;
      Flatten(paragraphs[..n]) + paragraphs[n]
  }

  /** Flattening distributes over concatenation of paragraph lists. */
  lemma {:induction false} FlattenConcat(a: seq<string>, b: seq<string>)
    ensures Flatten(a + b) == Flatten(a) + Flatten(b)
    decreases |b|
  {
    if b == [] {
      assert a + b == a;
    } else {
      var n := |b| - 1;
      assert (a + b)[..|a + b| - 1] == a + b[..n];
      FlattenConcat(a, b[..n]);
    }
  }

  /** Paragraph `j` sits in the flattened text right after the paragraphs
      before it, unchanged. */
  lemma FlattenPlacesParagraph(paragraphs: seq<string>, j: nat)
    requires j < |paragraphs|
    ensures var start := TotalLength(paragraphs[..j]);
      start + |paragraphs[j]| <= |Flatten(paragraphs)|
      && Flatten(paragraphs)[start..start + |paragraphs[j]|] == paragraphs[j]
  {
    var before, after := paragraphs[..j], paragraphs[j + 1..];
    assert paragraphs == before + [paragraphs[j]] + after;
    FlattenConcat(before + [paragraphs[j]], after);
    FlattenConcat(before, [paragraphs[j]]);
    assert Flatten([paragraphs[j]]) == paragraphs[j] by {
      assert [paragraphs[j]][..0] == [];
    }
  }

  /** `extract_text`: appends each paragraph's text in turn to an initially
      empty string. */
  method ExtractText(paragraphs: seq<string>) returns (text: string)
    ensures text == Flatten(paragraphs)
  {
    text := "";
    for i := 0 to |paragraphs|
      invariant text == Flatten(paragraphs[..i])
    {
      text := text + paragraphs[i];
      assert paragraphs[..i + 1][..i] == paragraphs[..i];
    }
    assert paragraphs[..|paragraphs|] == paragraphs;
  }
}
