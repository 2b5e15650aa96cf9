/** The Python string operations the verse pipeline relies on (`sub in s`,
    `s.find`, `s.replace`, `s.split`, `sep.join`), on strings as sequences of
    characters, with the facts about them the pipeline's properties need. */
module PyStr {

  /** `sub` occurs in `s` starting at index `i`. */
  predicate OccursAt(s: string, sub: string, i: nat)
  {
    i + |sub| <= |s| && s[i..i + |sub|] == sub
  }

  /** An occurrence at index 0 is a prefix. */
  lemma OccursAtStart(s: string, sub: string)
    ensures OccursAt(s, sub, 0) <==> sub <= s
  {
    if |sub| <= |s| {
      assert s[0..|sub|] == s[..|sub|];
    }
  }

  /** Occurrences in `s[1..]` are the occurrences in `s` shifted one to the left. */
  lemma OccursShift(s: string, sub: string, j: nat)
    requires s != [] && 1 <= j
    ensures OccursAt(s, sub, j) <==> OccursAt(s[1..], sub, j - 1)
  {
    if j + |sub| <= |s| {
      assert s[1..][j - 1..j - 1 + |sub|] == s[j..j + |sub|];
    }
  }

  /** An occurrence inside a prefix of `s` is an occurrence in `s`. */
  lemma OccursInPrefix(s: string, sub: string, n: nat, j: nat)
    requires n <= |s| && OccursAt(s[..n], sub, j)
    ensures OccursAt(s, sub, j) && j + |sub| <= n
  {
    assert s[..n][j..j + |sub|] == s[j..j + |sub|];
  }


  /** `s.find(sub)`: the lowest index at which `sub` occurs in `s`, or -1;
      a found occurrence lies within `s`. */
  function Find(s: string, sub: string): (r: int)
    ensures r == -1 || (0 <= r && r + |sub| <= |s|)
    decreases |s|
  {
    if sub <= s then 0
    else if s == [] then -1
    else
      var r' := Find(s[1..], sub);
      if r' < 0 then -1 else r' + 1
  }

  /** `Find` returns the first occurrence, and -1 only when there is none. */
  lemma {:induction false} FindFirst(s: string, sub: string)
    ensures Find(s, sub) >= 0 ==> OccursAt(s, sub, Find(s, sub))
    ensures forall j: nat :: j < Find(s, sub) ==> !OccursAt(s, sub, j)
    ensures Find(s, sub) < 0 ==> forall j: nat :: !OccursAt(s, sub, j)
    decreases |s|
  {
    OccursAtStart(s, sub);
    if !(sub <= s) && s != [] {
      FindFirst(s[1..], sub);
      forall j: nat | 1 <= j
        ensures OccursAt(s, sub, j) <==> OccursAt(s[1..], sub, j - 1)
      {
        OccursShift(s, sub, j);
      }
    }
  }

  /** A found occurrence is an occurrence. */
  lemma FindOccurs(s: string, sub: string)
    requires Find(s, sub) >= 0
    ensures OccursAt(s, sub, Find(s, sub))
  {
    FindFirst(s, sub);
  }

  /** The first occurrence splits what follows its start into itself and the rest. */
  lemma CutAtFirst(s: string, sub: string)
    requires Find(s, sub) >= 0
    ensures var i := Find(s, sub);
      s[i..] == sub + s[i + |sub|..]
  {
    var i := Find(s, sub);
    FindOccurs(s, sub);
    assert s[i..] == s[i..i + |sub|] + s[i + |sub|..];
  }

  /** Python's `sub in s`. */
  predicate Contains(s: string, sub: string)
  {
    Find(s, sub) >= 0
  }

  /** `sub in s` holds exactly when `sub` occurs somewhere in `s`. */
  lemma ContainsIff(s: string, sub: string)
    ensures Contains(s, sub) <==> exists i: nat :: OccursAt(s, sub, i)
  {
    FindFirst(s, sub);
  }

  /** An occurrence makes `sub in s` hold. */
  lemma OccursContained(s: string, sub: string, i: nat)
    requires OccursAt(s, sub, i)
    ensures Contains(s, sub)
  {
    FindFirst(s, sub);
  }

  /** A string contains whatever is spliced into it. */
  lemma ContainsSpliced(a: string, sub: string, b: string)
    ensures Contains(a + sub + b, sub)
  {
    assert (a + sub + b)[|a|..|a| + |sub|] == sub;
    OccursContained(a + sub + b, sub, |a|);
  }

  /** Every string contains itself. */
  lemma ContainsSelf(s: string)
    ensures Contains(s, s)
  {
    assert s[0..|s|] == s;
    OccursContained(s, s, 0);
  }

  /** Appending after a string keeps what it contains. */
  lemma ContainsAfter(a: string, b: string, sub: string)
    requires Contains(a, sub)
    ensures Contains(a + b, sub)
  {
    var i := Find(a, sub);
    FindOccurs(a, sub);
    assert (a + b)[i..i + |sub|] == a[i..i + |sub|];
    OccursContained(a + b, sub, i);
  }

  /** Prepending before a string keeps what it contains. */
  lemma ContainsBefore(a: string, b: string, sub: string)
    requires Contains(b, sub)
    ensures Contains(a + b, sub)
  {
    var i := Find(b, sub);
    FindOccurs(b, sub);
    assert (a + b)[|a| + i..|a| + i + |sub|] == b[i..i + |sub|];
    OccursContained(a + b, sub, |a| + i);
  }

  /** A string keeps what it contains when text is added on both sides. */
  lemma ContainsWithin(a: string, m: string, b: string, sub: string)
    requires Contains(m, sub)
    ensures Contains(a + m + b, sub)
  {
    ContainsBefore(a, m, sub);
    ContainsAfter(a + m, b, sub);
  }

  /** A non-empty `sub` can only occur in `s` if its first character does. */
  lemma ContainsFirstChar(s: string, sub: string)
    requires sub != [] && Contains(s, sub)
    ensures sub[0] in s
  {
    var i := Find(s, sub);
    FindOccurs(s, sub);
    assert s[i] == s[i..i + |sub|][0];
  }

  /** Concatenation is associative. */
  lemma AppendAssoc(a: string, b: string, c: string)
    ensures a + (b + c) == a + b + c
  {
  }

  /** `s.replace(pat, rep)` for a non-empty `pat`: scanning from the left,
      every non-overlapping occurrence of `pat` is replaced by `rep`. */
  function ReplaceAll(s: string, pat: string, rep: string): (replaced: string)
    requires pat != []
    decreases |s|
  {
    if pat <= s then rep + ReplaceAll(s[|pat|..], pat, rep)
    else if s == [] then []
    else [s[0]] + ReplaceAll(s[1..], pat, rep)
  }

  /** Dropping a first character that does not start an occurrence keeps
      `sub in s` as it was. */
  lemma ContainsTail(s: string, sub: string)
    requires s != [] && !(sub <= s)
    ensures Contains(s, sub) <==> Contains(s[1..], sub)
  {
    FindFirst(s, sub);
    FindFirst(s[1..], sub);
    OccursAtStart(s, sub);
    if Contains(s, sub) {
      OccursShift(s, sub, Find(s, sub));
    }
    if Contains(s[1..], sub) {
      OccursShift(s, sub, Find(s[1..], sub) + 1);
    }
  }

  /** Without an occurrence nothing is replaced; a replacement no longer than
      the pattern never lengthens the string, and a strictly shorter one
      shortens it as soon as the pattern occurs. */
  lemma {:induction false} ReplaceAllLength(s: string, pat: string, rep: string)
    requires pat != []
    ensures !Contains(s, pat) ==> ReplaceAll(s, pat, rep) == s
    ensures |rep| <= |pat| ==> |ReplaceAll(s, pat, rep)| <= |s|
    ensures |rep| < |pat| && Contains(s, pat) ==> |ReplaceAll(s, pat, rep)| < |s|
    decreases |s|
  {
    if pat <= s {
      ReplaceAllLength(s[|pat|..], pat, rep);
    } else if s != [] {
      ReplaceAllLength(s[1..], pat, rep);
      ContainsTail(s, pat);
    }
  }

  /** Deleting every occurrence of `pat` leaves `s` unchanged exactly when
      `pat` does not occur in it. */
  lemma DeleteUnchangedIff(s: string, pat: string)
    requires pat != []
    ensures ReplaceAll(s, pat, "") == s <==> !Contains(s, pat)
  {
    ReplaceAllLength(s, pat, "");
  }

  /** Replacing inside a string that starts with `pat` emits `rep` first. */
  lemma ReplaceLeading(pat: string, t: string, rep: string)
    requires pat != []
    ensures ReplaceAll(pat + t, pat, rep) == rep + ReplaceAll(t, pat, rep)
  {
    assert pat <= pat + t;
    assert (pat + t)[|pat|..] == t;
  }

  /** When `pat` does not occur before index `k`, the first `k` characters are
      copied unchanged. */
  lemma {:induction false} ReplaceCopiesUpTo(s: string, pat: string, rep: string, k: nat)
    requires pat != [] && k <= |s|
    requires Find(s, pat) < 0 || k <= Find(s, pat)
    ensures ReplaceAll(s, pat, rep) == s[..k] + ReplaceAll(s[k..], pat, rep)
    decreases k
  {
    if k == 0 {
      assert s[..0] + ReplaceAll(s[0..], pat, rep) == ReplaceAll(s, pat, rep);
    } else {
      var copied, r := s[1..][..k - 1], ReplaceAll(s[k..], pat, rep);
      ReplaceCopiesUpTo(s[1..], pat, rep, k - 1);
      assert s[1..][k - 1..] == s[k..];
      assert ReplaceAll(s, pat, rep) == [s[0]] + ReplaceAll(s[1..], pat, rep);
      AppendAssoc([s[0]], copied, r);
      assert [s[0]] + copied == s[..k];
    }
  }

  /** `s.split(sep)`: the pieces of `s` between the non-overlapping occurrences
      of `sep`, found from the left. */
  function Split(s: string, sep: string): (parts: seq<string>)
    requires sep != []
    ensures |parts| >= 1
    decreases |s|
  {
    var i := Find(s, sep);
    if i < 0 then [s] else [s[..i]] + Split(s[i + |sep|..], sep)
  }

  /** Without an occurrence, the split is the string alone. */
  lemma SplitWithout(s: string, sep: string)
    requires sep != [] && Find(s, sep) < 0
    ensures Split(s, sep) == [s]
  {
  }

  /** With an occurrence, the split is the piece before the first one followed
      by the split of what follows it. */
  lemma SplitAtFirst(s: string, sep: string)
    requires sep != [] && Find(s, sep) >= 0
    ensures var i := Find(s, sep);
      Split(s, sep) == [s[..i]] + Split(s[i + |sep|..], sep)
  {
  }

  /** The text before the first occurrence holds no occurrence. */
  lemma BeforeFirstFree(s: string, sep: string)
    requires sep != [] && Find(s, sep) >= 0
    ensures !Contains(s[..Find(s, sep)], sep)
  {
    var i := Find(s, sep);
    FindFirst(s, sep);
    if Contains(s[..i], sep) {
      var j := Find(s[..i], sep);
      FindFirst(s[..i], sep);
      OccursInPrefix(s, sep, i, j);
      assert false;
    }
  }

  /** No piece of a split contains the separator. */
  lemma {:induction false} SplitPiecesFree(s: string, sep: string)
    requires sep != []
    ensures forall k :: 0 <= k < |Split(s, sep)| ==> !Contains(Split(s, sep)[k], sep)
    decreases |s|
  {
    var i := Find(s, sep);
    if i < 0 {
      SplitWithout(s, sep);
    } else {
      var rest := s[i + |sep|..];
      SplitPiecesFree(rest, sep);
      BeforeFirstFree(s, sep);
      SplitAtFirst(s, sep);
    }
  }

  /** `sep.join(parts)`. */
  function Join(parts: seq<string>, sep: string): (joined: string)
  {
    if parts == [] then []
    else if |parts| == 1 then parts[0]
    else parts[0] + (sep + Join(parts[1..], sep))
  }

  /** Joining a piece in front of a non-empty list puts the separator between. */
  lemma JoinCons(first: string, rest: seq<string>, sep: string)
    requires rest != []
    ensures Join([first] + rest, sep) == first + (sep + Join(rest, sep))
  {
    assert ([first] + rest)[1..] == rest;
  }

  /** One step of the scan: everything before the first occurrence is copied,
      the occurrence becomes `rep`, and the scan resumes after it. */
  lemma ReplaceAtFirst(s: string, pat: string, rep: string)
    requires pat != [] && Find(s, pat) >= 0
    ensures var i := Find(s, pat);
      ReplaceAll(s, pat, rep) == s[..i] + (rep + ReplaceAll(s[i + |pat|..], pat, rep))
  {
    var i := Find(s, pat);
    var rest := s[i + |pat|..];
    ReplaceCopiesUpTo(s, pat, rep, i);
    CutAtFirst(s, pat);
    ReplaceLeading(pat, rest, rep);
  }

  /** Joining the pieces of a split with `rep`: the piece before the first
      occurrence, then `rep`, then the joined pieces of the rest. */
  lemma JoinSplitAtFirst(s: string, pat: string, rep: string)
    requires pat != [] && Find(s, pat) >= 0
    ensures var i := Find(s, pat);
      Join(Split(s, pat), rep) == s[..i] + (rep + Join(Split(s[i + |pat|..], pat), rep))
  {
    var i := Find(s, pat);
    var pieces := Split(s[i + |pat|..], pat);
    SplitAtFirst(s, pat);
    JoinCons(s[..i], pieces, rep);
  }

  /** Python's identity `s.replace(pat, rep) == rep.join(s.split(pat))`: the
      left-to-right scan agrees with splitting at the first occurrence, again
      and again. */
  lemma {:induction false} ReplaceIsJoinOfSplit(s: string, pat: string, rep: string)
    requires pat != []
    ensures ReplaceAll(s, pat, rep) == Join(Split(s, pat), rep)
    decreases |s|
  {
    var i := Find(s, pat);
    if i < 0 {
      ReplaceAllLength(s, pat, rep);
      SplitWithout(s, pat);
    } else {
      var rest := s[i + |pat|..];
      ReplaceAtFirst(s, pat, rep);
      ReplaceIsJoinOfSplit(rest, pat, rep);
      JoinSplitAtFirst(s, pat, rep);
    }
  }
}
