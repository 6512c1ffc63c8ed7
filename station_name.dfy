/**
 * Station-name cleaning: sheet names such as `서울시청(시간별)` become the station name
 * `서울시청` by deleting every `(시간별)` and then trimming whitespace.
 */
module StationName {
  import opened Strings

  /** The "hourly" tag some sheet names carry. */
  const HourlyTag := "(시간별)"

  /** `.str.replace(r"\(시간별\)", "", regex=True).str.strip()`. */
  function CleanName(s: string): string {
    Strip(RemoveAll(s, HourlyTag))
  }

  /** A text free of the tag has no occurrence in any of its suffixes. */
  lemma ContainsInTail(s: string, m: string)
    requires |s| > 0
    ensures Contains(s[1..], m) ==> Contains(s, m)
  {
    if Contains(s[1..], m) {
      var i: nat :| i <= |s[1..]| && OccursAt(s[1..], i, m);
      assert s[1 + i..1 + i + |m|] == s[1..][i..i + |m|];
      assert OccursAt(s, 1 + i, m);
    }
  }

  /** Deleting the tag leaves a tag-free text as it is. */
  lemma {:induction false} RemoveAllAbsent(s: string)
    requires !Contains(s, HourlyTag)
    ensures RemoveAll(s, HourlyTag) == s
    decreases |s|
  {
    if |s| > 0 {
      assert !OccursAt(s, 0, HourlyTag);
      ContainsInTail(s, HourlyTag);
      RemoveAllAbsent(s[1..]);
      assert s == [s[0]] + s[1..];
    }
  }

  /**
   * A tag appended to a tag-free text cannot start inside it: `(` occurs in the tag only
   * at its start.
   */
  lemma TagDoesNotStraddle(x: string)
    requires |x| > 0 && !Contains(x, HourlyTag)
    ensures !StartsWith(x + HourlyTag, HourlyTag)
  {
    if |x| >= |HourlyTag| {
      assert (x + HourlyTag)[..|HourlyTag|] == x[..|HourlyTag|];
      assert !OccursAt(x, 0, HourlyTag);
    } else {
      assert (x + HourlyTag)[|x|] == '(';
    }
  }

  /** Deleting the tag from a tag-free text followed by the tag gives the text back. */
  lemma {:induction false} RemoveAllTagged(x: string)
    requires !Contains(x, HourlyTag)
    ensures RemoveAll(x + HourlyTag, HourlyTag) == x
    decreases |x|
  {
    if |x| == 0 {
      assert x + HourlyTag == HourlyTag;
      assert HourlyTag[|HourlyTag|..] == [];
    } else {
      TagDoesNotStraddle(x);
      ContainsInTail(x, HourlyTag);
      RemoveAllTagged(x[1..]);
      assert (x + HourlyTag)[1..] == x[1..] + HourlyTag;
      assert x == [x[0]] + x[1..];
    }
  }

  /** Left-trimming a concatenation: the second part matters only once the first is all blank. */
  lemma {:induction false} TrimLeftAppend(x: string, t: string)
    ensures TrimLeft(x + t, IsSpace) == if TrimLeft(x, IsSpace) == [] then TrimLeft(t, IsSpace) else TrimLeft(x, IsSpace) + t
  {
    if |x| == 0 {
      assert x + t == t;
    } else if IsSpace(x[0]) {
      assert (x + t)[1..] == x[1..] + t;
      TrimLeftAppend(x[1..], t);
    }
  }

  /** Right-trimming ignores trailing blanks. */
  lemma TrimRightSpace(x: string)
    ensures TrimRight(x + " ", IsSpace) == TrimRight(x, IsSpace)
  {
    assert (x + " ")[..|x|] == x;
  }

  /** Surrounding blanks do not change the stripped text. */
  lemma StripPadded(x: string)
    ensures Strip(" " + x + " ") == Strip(x)
  {
    assert (" " + x + " ")[1..] == x + " ";
    TrimLeftAppend(x, " ");
    if TrimLeft(x, IsSpace) != [] {
      TrimRightSpace(TrimLeft(x, IsSpace));
    } else {
      assert " "[1..] == [];
    }
  }

  /** Padding a tag-free text with blanks keeps it tag-free: the tag holds no blank. */
  lemma PaddedTagFree(x: string)
    requires !Contains(x, HourlyTag)
    ensures !Contains(" " + x + " ", HourlyTag)
  {
    var p := " " + x + " ";
    forall i: nat | i <= |p| ensures !OccursAt(p, i, HourlyTag) {
      if OccursAt(p, i, HourlyTag) {
        assert p[i] == HourlyTag[0] && p[i + |HourlyTag| - 1] == HourlyTag[|HourlyTag| - 1];
        assert 0 < i && i + |HourlyTag| <= |p| - 1;
        assert x[i - 1..i - 1 + |HourlyTag|] == p[i..i + |HourlyTag|];
        assert OccursAt(x, i - 1, HourlyTag);
      }
    }
  }

  /** `X(시간별)`, ` X ` and `X` name the same station when `X` does not itself contain the tag. */
  lemma TaggedAndPaddedNamesAgree(x: string)
    requires !Contains(x, HourlyTag)
    ensures CleanName(x + HourlyTag) == CleanName(x)
    ensures CleanName(" " + x + " ") == CleanName(x)
  {
    RemoveAllTagged(x);
    RemoveAllAbsent(x);
    StripPadded(x);
    PaddedTagFree(x);
    RemoveAllAbsent(" " + x + " ");
  }

  /** Cleaning is not idempotent: deleting an inner tag can assemble a new one. */
  lemma CleanNameMayLeaveTag()
    ensures CleanName("(시(시간별)간별)") == HourlyTag
  {
    var s := "(시(시간별)간별)";
    var rest := "간별)";
    assert s[2..] == HourlyTag + rest;
    assert !StartsWith(s, HourlyTag) by { assert s[..5][2] != HourlyTag[2]; }
    assert !StartsWith(s[1..], HourlyTag) by { assert s[1..][..5][0] != HourlyTag[0]; }
    assert StartsWith(s[2..], HourlyTag) by { assert s[2..][..5] == HourlyTag; }
    assert RemoveAll(s[2..], HourlyTag) == RemoveAll(rest, HourlyTag) by { assert s[2..][5..] == rest; }
    assert !Contains(rest, HourlyTag) by {
      forall i: nat | i <= |rest| ensures !OccursAt(rest, i, HourlyTag) { }
    }
    RemoveAllAbsent(rest);
    assert RemoveAll(s[1..], HourlyTag) == [s[1]] + RemoveAll(s[2..], HourlyTag) by { assert s[1..][1..] == s[2..]; }
    assert RemoveAll(s, HourlyTag) == HourlyTag;
    assert !IsSpace('(') && !IsSpace(')');
  }
}
