/**
 * `MQTTClass::_topicMatches` (src/MycilaMQTT.cpp:170-259): the character-walking
 * decision procedure that routes an inbound topic to a subscription filter.
 *
 * The C code walks a pointer `sub` over the filter and a pointer `topic` over the
 * topic, counting in `spos` how far `sub` has moved.  Here the strings are
 * `seq<char>` read through `At`, whose index |s| is the NUL terminator, and the
 * pointers become the integer cursors `i` (filter) and `j` (topic).  `sub[-1]`,
 * `sub[1]`, `sub[2]` and `sub[3]` become `At(f, i - 1)` ... `At(f, i + 3)`, and `At`
 * demands an index in 0..|s|, so verifying the method proves every read in bounds.
 *
 * `Walk` is the same procedure as a function, one call per turn of the outer loop.
 * With `strict` false it is the code as written; with `strict` true the test at
 * :223 also demands that the '#' ends the filter, which is the corrected matcher.
 */
module TopicMatcher {
  import opened TopicSpec
  import opened Optional

  /** The character a C cursor at index k reads: the terminator NUL at k == |s|. */
  function At(s: string, k: int): char
    requires 0 <= k <= |s|
  {
    if k < |s| then s[k] else '\0'
  }

  /**
   * The loop at :198-202: skip the rest of the current topic level.  None when it
   * meets a wildcard first (the `return false` at :200), else the index of the '/'
   * or terminator that ends the level.
   */
  function SkipLevel(t: string, j: nat): (r: Option<nat>)
    requires j <= |t|
    ensures r.Some? ==> j <= r.value <= |t| && (At(t, r.value) == '\0' || At(t, r.value) == '/')
    decreases |t| - j
  {
    if At(t, j) == '\0' || At(t, j) == '/' then Some(j)
    else if IsWild(At(t, j)) then None
    else SkipLevel(t, j + 1)
  }

  /** The loop at :214-218: true when the rest of the topic holds no wildcard. */
  function RestClean(t: string, j: nat): bool
    requires j <= |t|
    decreases |t| - j
  {
    if At(t, j) == '\0' then true
    else if IsWild(At(t, j)) then false
    else RestClean(t, j + 1)
  }

  /** The guards at :174-178: both strings non-empty, and '$' on both or neither. */
  predicate Admissible(f: string, t: string) {
    At(f, 0) != '\0' && At(t, 0) != '\0' &&
    !((f[0] == '$' && t[0] != '$') || (t[0] == '$' && f[0] != '$'))
  }

  /**
   * One state of the outer loop at :182-257, with the filter cursor at i (the C
   * code keeps `spos == i`) and the topic cursor at j: the value `_topicMatches`
   * returns from there.
   */
  function Walk(f: string, t: string, i: nat, j: nat, strict: bool): bool
    requires i <= |f| && j <= |t|
    decreases |f| - i
  {
    if At(f, i) == '\0' then false
    else if IsWild(At(t, j)) then false
    else if At(f, i) != At(t, j) || At(t, j) == '\0' then
      if f[i] == '+' then
        if i > 0 && f[i - 1] != '/' then false
        else if At(f, i + 1) != '\0' && At(f, i + 1) != '/' then false
        else match SkipLevel(t, j)
          case None => false
          case Some(k) =>
            if At(t, k) == '\0' && At(f, i + 1) == '\0' then true
            else Walk(f, t, i + 1, k, strict)
      else if f[i] == '#' then
        if i > 0 && f[i - 1] != '/' then false
        else if At(f, i + 1) != '\0' then false
        else RestClean(t, j)
      else
        At(t, j) == '\0' && i > 0 && f[i - 1] == '+' && f[i] == '/' && At(f, i + 1) == '#' &&
        (strict ==> At(f, i + 2) == '\0')
    else if At(t, j + 1) == '\0' && At(f, i + 1) == '/' && At(f, i + 2) == '#' && At(f, i + 3) == '\0' then
      true
    else if At(f, i + 1) == '\0' && At(t, j + 1) == '\0' then
      true
    else if At(t, j + 1) == '\0' && At(f, i + 1) == '+' && At(f, i + 2) == '\0' then
      f[i] == '/'
    else
      Walk(f, t, i + 1, j + 1, strict)
  }

  /** `_topicMatches` as written. */
  predicate AsWritten(f: string, t: string) {
    Admissible(f, t) && Walk(f, t, 0, 0, false)
  }

  /**
   * The corrected matcher, with `sub[2] == 0` added to the test at :223; it is
   * exactly the matcher of section 4.7 on C strings.
   */
  function FixedMatches(f: string, t: string): (r: bool)
    ensures NoNul(f) && NoNul(t) ==> (r <==> Matches(f, t))
  {
    FixedIsReference(f, t);
    Admissible(f, t) && Walk(f, t, 0, 0, true)
  }

  /**
   * The method the source runs: the cursor walk of :170-259, statement by statement.
   * Its result is `AsWritten`; on a well-formed filter that is the reference matcher.
   */
  method TopicMatches(sub: string, topic: string) returns (r: bool)
    ensures r == AsWritten(sub, topic)
    ensures NoNul(sub) && NoNul(topic) && ValidFilter(sub) ==> (r <==> Matches(sub, topic))
    ensures r ==> |sub| > 0 && |topic| > 0 && (sub[0] == '$' <==> topic[0] == '$')
    ensures r && NoNul(topic) ==> NoWild(topic)
  {
    AsWrittenOnValidFilters(sub, topic);
    AsWrittenCleanTopic(sub, topic);
    if At(sub, 0) == '\0' || At(topic, 0) == '\0' {
      return false;
    }
    if (sub[0] == '$' && topic[0] != '$') || (topic[0] == '$' && sub[0] != '$') {
      return false;
    }
    var i, j := 0, 0;
    var spos := 0;
    while At(sub, i) != '\0'
      invariant i <= |sub| && j <= |topic| && spos == i
      invariant Walk(sub, topic, i, j, false) == Walk(sub, topic, 0, 0, false)
      decreases |sub| - i
    {
      if At(topic, j) == '+' || At(topic, j) == '#' {
        return false;
      }
      if At(sub, i) != At(topic, j) || At(topic, j) == '\0' {
        if At(sub, i) == '+' {
          // a "+foo" or "a/+foo" filter
          if spos > 0 && At(sub, i - 1) != '/' {
            return false;
          }
          // a "foo+" or "foo+/a" filter
          if At(sub, i + 1) != '\0' && At(sub, i + 1) != '/' {
            return false;
          }
          spos, i := spos + 1, i + 1;
          ghost var j0 := j;
          while At(topic, j) != '\0' && At(topic, j) != '/'
            invariant j0 <= j <= |topic|
            invariant SkipLevel(topic, j) == SkipLevel(topic, j0)
            decreases |topic| - j
          {
            if At(topic, j) == '+' || At(topic, j) == '#' {
              return false;
            }
            j := j + 1;
          }
          if At(topic, j) == '\0' && At(sub, i) == '\0' {
            return true;
          }
        } else if At(sub, i) == '#' {
          // a "foo#" filter
          if spos > 0 && At(sub, i - 1) != '/' {
            return false;
          }
          // a '#' that does not end the filter
          if At(sub, i + 1) != '\0' {
            return false;
          }
          ghost var j0 := j;
          while At(topic, j) != '\0'
            invariant j0 <= j <= |topic|
            invariant RestClean(topic, j) == RestClean(topic, j0)
            decreases |topic| - j
          {
            if At(topic, j) == '+' || At(topic, j) == '#' {
              return false;
            }
            j := j + 1;
          }
          return true;
        } else {
          // "foo/bar" against "foo/+/#"
          if At(topic, j) == '\0' && spos > 0 && At(sub, i - 1) == '+' && At(sub, i) == '/' && At(sub, i + 1) == '#' {
            return true;
          }
          // no match; the scan at :227-232 only tells a bad filter from a mismatch
          while At(sub, i) != '\0'
            invariant i <= |sub| && spos == i
            decreases |sub| - i
          {
            if At(sub, i) == '#' && At(sub, i + 1) != '\0' {
              return false;
            }
            spos, i := spos + 1, i + 1;
          }
          return false;
        }
      } else {
        // "foo" against "foo/#"
        if At(topic, j + 1) == '\0' {
          if At(sub, i + 1) == '/' && At(sub, i + 2) == '#' && At(sub, i + 3) == '\0' {
            return true;
          }
        }
        spos, i, j := spos + 1, i + 1, j + 1;
        if At(sub, i) == '\0' && At(topic, j) == '\0' {
          return true;
        } else if At(topic, j) == '\0' && At(sub, i) == '+' && At(sub, i + 1) == '\0' {
          if spos > 0 && At(sub, i - 1) != '/' {
            return false;
          }
          spos, i := spos + 1, i + 1;
          return true;
        }
      }
    }
    return false;
  }

  // ---------------------------------------------------------------------------
  // What a state of the walk means

  /** The part of the filter from i on obeys the wildcard placement rules. */
  predicate ValidFrom(f: string, i: nat)
    requires i <= |f|
  {
    forall k :: i <= k < |f| ==> WildPlaced(f, k)
  }

  /** What is left to decide in state (i, j), in the terms of the reference matcher. */
  predicate Remainder(f: string, t: string, i: nat, j: nat)
    requires i <= |f| && j <= |t|
  {
    ValidFrom(f, i) && NoWild(t[j..]) && LevelsMatch(Split(f[i..]), Split(t[j..]))
  }

  /**
   * The states the walk reaches: it returns before both cursors hit the terminators,
   * and the topic cursor hits its terminator only just after a '+' level or when
   * the filter does not go on with "/#" (the early `return true` at :241-242).
   */
  predicate Reachable(f: string, t: string, i: nat, j: nat)
    requires i <= |f| && j <= |t|
  {
    !(i == |f| && j == |t|) &&
    (j == |t| ==> i > 0 && (f[i - 1] != '+' ==> f[i..] != "/#"))
  }

  lemma SuffixCons(s: string, i: nat)
    requires i < |s|
    ensures s[i..] == [s[i]] + s[i + 1..]
  {
  }

  lemma NoWildConcat(a: string, b: string)
    ensures NoWild(a + b) <==> NoWild(a) && NoWild(b)
  {
    if NoWild(a) && NoWild(b) {
      forall k | 0 <= k < |a + b| ensures !IsWild((a + b)[k]) {
        if k >= |a| {
          assert (a + b)[k] == b[k - |a|];
        }
      }
    }
    if NoWild(a + b) {
      forall k | 0 <= k < |a| ensures !IsWild(a[k]) {
        assert (a + b)[k] == a[k];
      }
      forall k | 0 <= k < |b| ensures !IsWild(b[k]) {
        assert (a + b)[|a| + k] == b[k];
      }
    }
  }

  lemma ValidFromStep(f: string, i: nat)
    requires i < |f|
    ensures ValidFrom(f, i) <==> WildPlaced(f, i) && ValidFrom(f, i + 1)
  {
  }

  lemma {:induction false} SkipLevelMeaning(t: string, j: nat)
    requires NoNul(t) && j <= |t|
    ensures SkipLevel(t, j).None? ==> !NoWild(t[j..])
    ensures SkipLevel(t, j).Some? ==>
              var k := SkipLevel(t, j).value;
              '/' !in t[j..k] && NoWild(t[j..k]) && (k == |t| || t[k] == '/')
    decreases |t| - j
  {
    if j < |t| && t[j] != '/' && !IsWild(t[j]) {
      SkipLevelMeaning(t, j + 1);
      SuffixCons(t, j);
      if SkipLevel(t, j).Some? {
        var k := SkipLevel(t, j).value;
        assert t[j..k] == [t[j]] + t[j + 1..k];
        NoWildConcat([t[j]], t[j + 1..k]);
      } else {
        NoWildConcat([t[j]], t[j + 1..]);
      }
    } else if j < |t| && IsWild(t[j]) {
      assert t[j..][0] == t[j];
    }
  }

  lemma {:induction false} RestCleanMeaning(t: string, j: nat)
    requires NoNul(t) && j <= |t|
    ensures RestClean(t, j) == NoWild(t[j..])
    decreases |t| - j
  {
    if j < |t| {
      RestCleanMeaning(t, j + 1);
      SuffixCons(t, j);
      NoWildConcat([t[j]], t[j + 1..]);
    }
  }

  // ---------------------------------------------------------------------------
  // One lemma per branch of the walk

  /** The filter is used up while the topic is not: no match (the exit at :258). */
  lemma FilterExhausted(f: string, t: string, j: nat)
    requires j < |t|
    ensures !Remainder(f, t, |f|, j)
  {
    assert f[|f|..] == [];
    var ts := Split(t[j..]);
    SplitSingle(t[j..]);
    assert [""][0] == "" && [""][1..] == [];
    assert LevelsMatch([""], ts) == (ts[0] == "" && LevelsMatch([], ts[1..]));
    assert LevelsMatch([], ts[1..]) ==> |ts| == 1;
  }

  /** A '+' level consumes one topic level: the state after it means the same. */
  lemma PlusStep(f: string, t: string, i: nat, j: nat, k: nat)
    requires i < |f| && j <= k <= |t|
    requires f[i] == '+' && (i == 0 || f[i - 1] == '/') && (i + 1 == |f| || f[i + 1] == '/')
    requires '/' !in t[j..k] && NoWild(t[j..k]) && (k == |t| || t[k] == '/')
    ensures Remainder(f, t, i, j) == Remainder(f, t, i + 1, k)
  {
    ValidFromStep(f, i);
    assert t[j..] == t[j..k] + t[k..];
    NoWildConcat(t[j..k], t[k..]);
    SuffixCons(f, i);
    var fr, tr := Split(f[i + 1..]), Split(t[k..]);
    SplitCons('+', f[i + 1..]);
    SplitHead(f[i + 1..]);
    SplitLevelPrefix(t[j..k], t[k..]);
    SplitHead(t[k..]);
    assert fr[0] == "" && tr[0] == "";
    assert [f[i]] + fr[0] == "+";
    assert t[j..k] + tr[0] == t[j..k];
    assert Split(f[i..]) == ["+"] + fr[1..];
    assert Split(t[j..]) == [t[j..k]] + tr[1..];
    assert fr == [""] + fr[1..];
    assert tr == [""] + tr[1..];
  }

  /** A character the filter and the topic share: the state after it means the same. */
  lemma CharStep(f: string, t: string, i: nat, j: nat)
    requires i < |f| && j < |t| && f[i] == t[j] && !IsWild(t[j])
    ensures Remainder(f, t, i, j) == Remainder(f, t, i + 1, j + 1)
  {
    var c := f[i];
    ValidFromStep(f, i);
    SuffixCons(f, i);
    SuffixCons(t, j);
    NoWildConcat([c], t[j + 1..]);
    SplitCons(c, f[i + 1..]);
    SplitCons(c, t[j + 1..]);
    var fr, tr := Split(f[i + 1..]), Split(t[j + 1..]);
    if c != '/' {
      var fl := [c] + fr[0];
      assert fl[0] == c;
      assert fl != "#" && fl != "+";
      assert fl[1..] == fr[0] && ([c] + tr[0])[1..] == tr[0];
      assert fl == [c] + tr[0] <==> fr[0] == tr[0];
      if ValidFrom(f, i + 1) {
        SplitHead(f[i + 1..]);
        if i + 1 < |f| {
          assert WildPlaced(f, i + 1);
          assert f[i + 1..][0] == f[i + 1];
        }
        assert fr[0] != "#" && fr[0] != "+";
        assert fr == [fr[0]] + fr[1..];
        assert tr == [tr[0]] + tr[1..];
      }
    }
  }

  /** A '#' branch (:205-220): bad placement is no match, else the rest of the topic decides. */
  lemma HashBranch(f: string, t: string, i: nat, j: nat)
    requires i < |f| && j <= |t| && f[i] == '#'
    ensures (i > 0 && f[i - 1] != '/') || i + 1 < |f| ==> !Remainder(f, t, i, j)
    ensures (i == 0 || f[i - 1] == '/') && i + 1 == |f| ==> (Remainder(f, t, i, j) <==> NoWild(t[j..]))
  {
    ValidFromStep(f, i);
    if (i == 0 || f[i - 1] == '/') && i + 1 == |f| {
      assert f[i..] == "#";
      assert Split(f[i..]) == ["#"] by {
        SplitCons('#', "");
        assert f[i..] == ['#'] + "";
      }
    }
  }

  /**
   * A filter character that is no wildcard and differs from the topic's, or meets
   * the topic's terminator (:221-235): a match only when the topic ends just after
   * a '+' level and the filter ends with "/#".
   */
  lemma MismatchBranch(f: string, t: string, i: nat, j: nat, strict: bool)
    requires NoNul(f) && i < |f| && j <= |t| && !IsWild(f[i])
    requires j < |t| ==> f[i] != t[j] && !IsWild(t[j])
    requires Reachable(f, t, i, j)
    requires strict || ValidFrom(f, i)
    ensures Remainder(f, t, i, j) <==>
            j == |t| && i > 0 && f[i - 1] == '+' && f[i] == '/' && At(f, i + 1) == '#' &&
            (strict ==> At(f, i + 2) == '\0')
  {
    SuffixCons(f, i);
    SplitCons(f[i], f[i + 1..]);
    var fs, fr := Split(f[i..]), Split(f[i + 1..]);
    if j < |t| {
      SuffixCons(t, j);
      SplitCons(t[j], t[j + 1..]);
      var ts := Split(t[j..]);
      SplitHead(f[i..]);
      SplitHead(t[j..]);
      assert fs[0] != "#" && fs[0] != "+";
      assert fs[0] != ts[0];
    } else {
      assert t[j..] == [];
      if f[i] != '/' {
        SplitHead(f[i..]);
        assert fs[0] != "#" && fs[0] != "";
      } else {
        assert fs == [""] + fr;
        assert LevelsMatch(fs, [""]) == LevelsMatch(fr, []);
        assert LevelsMatch(fr, []) <==> fr[0] == "#";
        SplitHead(f[i + 1..]);
        ValidFromStep(f, i);
        if i + 1 < |f| {
          ValidFromStep(f, i + 1);
          SuffixCons(f, i + 1);
          SplitCons(f[i + 1], f[i + 2..]);
          SplitHead(f[i + 2..]);
          if f[i + 1] == '#' {
            assert fr[0] == "#" <==> f[i + 2..] == [] || f[i + 2] == '/';
            if i + 2 == |f| {
              assert f[i..] == "/#";
            }
          }
        }
      }
    }
  }

  /**
   * The walk decides the reference matcher on what is left: in every reachable
   * state the corrected walk, and the walk as written on a well-formed filter,
   * return exactly the Remainder.
   */
  lemma {:induction false} WalkIsRemainder(f: string, t: string, i: nat, j: nat, strict: bool)
    requires NoNul(f) && NoNul(t) && i <= |f| && j <= |t|
    requires Reachable(f, t, i, j)
    requires strict || ValidFrom(f, i)
    ensures Walk(f, t, i, j, strict) == Remainder(f, t, i, j)
    decreases |f| - i, 1
  {
    if i == |f| {
      FilterExhausted(f, t, j);
    } else if j < |t| && IsWild(t[j]) {
      SuffixCons(t, j);
      NoWildConcat([t[j]], t[j + 1..]);
    } else if j == |t| || f[i] != t[j] {
      if f[i] == '+' {
        PlusWalk(f, t, i, j, strict);
      } else if f[i] == '#' {
        HashBranch(f, t, i, j);
        if (i == 0 || f[i - 1] == '/') && i + 1 == |f| {
          RestCleanMeaning(t, j);
        }
      } else {
        MismatchBranch(f, t, i, j, strict);
      }
    } else {
      CharWalk(f, t, i, j, strict);
    }
  }

  /** The '+' branch of the walk (:185-204). */
  lemma {:induction false} PlusWalk(f: string, t: string, i: nat, j: nat, strict: bool)
    requires NoNul(f) && NoNul(t) && i < |f| && j <= |t| && f[i] == '+'
    requires j < |t| ==> !IsWild(t[j])
    requires Reachable(f, t, i, j)
    requires strict || ValidFrom(f, i)
    ensures Walk(f, t, i, j, strict) == Remainder(f, t, i, j)
    decreases |f| - i, 0
  {
    ValidFromStep(f, i);
    if (i == 0 || f[i - 1] == '/') && (i + 1 == |f| || f[i + 1] == '/') {
      SkipLevelMeaning(t, j);
      if SkipLevel(t, j).Some? {
        var k := SkipLevel(t, j).value;
        PlusStep(f, t, i, j, k);
        if k == |t| && i + 1 == |f| {
          assert t[j..] == t[j..k];
          SplitSingle(t[j..]);
          SplitCons('+', "");
          assert Split("") == [""];
          assert f[i..] == ['+'] + "";
          assert Split(f[i..]) == [['+'] + ""] + [];
          assert ["+"][1..] == [] && Split(t[j..])[1..] == [];
          assert LevelsMatch(Split(f[i..]), Split(t[j..]));
        } else {
          WalkIsRemainder(f, t, i + 1, k, strict);
        }
      }
    }
  }

  /** The branch of a character the filter and the topic share (:236-256). */
  lemma {:induction false} CharWalk(f: string, t: string, i: nat, j: nat, strict: bool)
    requires NoNul(f) && NoNul(t) && i < |f| && j < |t| && f[i] == t[j] && !IsWild(t[j])
    requires strict || ValidFrom(f, i)
    ensures Walk(f, t, i, j, strict) == Remainder(f, t, i, j)
    decreases |f| - i, 0
  {
    var c := f[i];
    CharStep(f, t, i, j);
    if j + 1 == |t| && f[i + 1..] == "/#" {
      assert f[i..] == [c] + "/#";
      HashAfter(f, t, i, j);
    } else if i + 1 == |f| && j + 1 == |t| {
      assert f[i..] == [c] && t[j..] == [c];
      LevelsMatchReflexive(Split([c]));
    } else if j + 1 == |t| && i + 2 == |f| && f[i + 1] == '+' {
      ValidFromStep(f, i + 1);
      if c == '/' {
        assert f[i + 1..] == "+" && t[j + 1..] == "";
        SplitCons('+', "");
        assert f[i + 1..] == ['+'] + "";
        assert Split(f[i + 1..]) == ["+"] && Split(t[j + 1..]) == [""];
        assert ["+"][1..] == [] && [""][1..] == [];
        assert WildPlaced(f, i + 1);
      }
    } else {
      assert At(f, i + 1) == '/' && At(f, i + 2) == '#' && At(f, i + 3) == '\0' ==> f[i + 1..] == "/#";
      ValidFromStep(f, i);
      WalkIsRemainder(f, t, i + 1, j + 1, strict);
    }
  }

  /** "foo" against "foo/#": the case of the early `return true` at :241-242. */
  lemma HashAfter(f: string, t: string, i: nat, j: nat)
    requires i + 3 == |f| && j + 1 == |t| && f[i] == t[j] && !IsWild(t[j])
    requires f[i + 1] == '/' && f[i + 2] == '#'
    ensures Remainder(f, t, i, j)
  {
    CharStep(f, t, i, j);
    assert f[i + 1..] == ['/'] + "#";
    assert t[j + 1..] == [];
    SplitCons('/', "#");
    SplitCons('#', "");
    assert "#" == ['#'] + "";
    assert Split(f[i + 1..]) == ["", "#"];
    ValidFromStep(f, i + 1);
    ValidFromStep(f, i + 2);
  }

  // ---------------------------------------------------------------------------
  // The matchers against the reference

  /** The whole-string form of the walk's meaning, given the guards at :174-178. */
  lemma StartIsReference(f: string, t: string)
    requires NoNul(f) && NoNul(t)
    ensures Admissible(f, t) && Remainder(f, t, 0, 0) <==> Matches(f, t)
  {
    assert f[0..] == f && t[0..] == t;
    if Matches(f, t) {
      DollarIsolation(f, t);
    }
    if Admissible(f, t) && Remainder(f, t, 0, 0) {
      assert ValidFilter(f);
    }
  }

  /** The corrected walk is the matcher of section 4.7 on every pair of C strings. */
  lemma FixedIsReference(f: string, t: string)
    ensures NoNul(f) && NoNul(t) ==> (Admissible(f, t) && Walk(f, t, 0, 0, true) <==> Matches(f, t))
  {
    if NoNul(f) && NoNul(t) {
      StartIsReference(f, t);
      if Admissible(f, t) {
        WalkIsRemainder(f, t, 0, 0, true);
      }
    }
  }

  /** On a well-formed filter the code as written is the matcher of section 4.7. */
  lemma AsWrittenOnValidFilters(f: string, t: string)
    ensures NoNul(f) && NoNul(t) && ValidFilter(f) ==> (AsWritten(f, t) <==> Matches(f, t))
  {
    if NoNul(f) && NoNul(t) && ValidFilter(f) {
      StartIsReference(f, t);
      if Admissible(f, t) {
        WalkIsRemainder(f, t, 0, 0, false);
      }
    }
  }

  /** The walk answers true only after it has read the whole topic and found no wildcard. */
  lemma {:induction false} WalkCleanTopic(f: string, t: string, i: nat, j: nat, strict: bool)
    requires NoNul(t) && i <= |f| && j <= |t|
    requires Walk(f, t, i, j, strict)
    ensures NoWild(t[j..])
    decreases |f| - i
  {
    if j < |t| {
      SuffixCons(t, j);
      NoWildConcat([t[j]], t[j + 1..]);
    }
    if At(f, i) != At(t, j) || At(t, j) == '\0' {
      if f[i] == '+' {
        SkipLevelMeaning(t, j);
        var k := SkipLevel(t, j).value;
        assert t[j..] == t[j..k] + t[k..];
        NoWildConcat(t[j..k], t[k..]);
        if !(At(t, k) == '\0' && At(f, i + 1) == '\0') {
          WalkCleanTopic(f, t, i + 1, k, strict);
        }
      } else if f[i] == '#' {
        RestCleanMeaning(t, j);
      }
    } else if !(At(t, j + 1) == '\0') {
      WalkCleanTopic(f, t, i + 1, j + 1, strict);
    }
  }

  /** Whatever the filter, a topic holding '+' or '#' is never matched. */
  lemma AsWrittenCleanTopic(f: string, t: string)
    ensures AsWritten(f, t) && NoNul(t) ==> NoWild(t)
  {
    if AsWritten(f, t) && NoNul(t) {
      WalkCleanTopic(f, t, 0, 0, false);
      assert t[0..] == t;
    }
  }

  /** A filter with a '+' followed by "/#" and more: the shape the test at :223 lets through. */
  predicate PlusHashPrefix(f: string) {
    exists k :: 1 <= k && k + 2 < |f| && f[k - 1] == '+' && f[k] == '/' && f[k + 1] == '#'
  }

  /** The walk as written and the corrected walk part only on a filter of that shape. */
  lemma {:induction false} WalksDiffer(f: string, t: string, i: nat, j: nat)
    requires i <= |f| && j <= |t|
    requires Walk(f, t, i, j, false) != Walk(f, t, i, j, true)
    ensures PlusHashPrefix(f)
    decreases |f| - i
  {
    if At(f, i) != At(t, j) || At(t, j) == '\0' {
      if f[i] == '+' {
        WalksDiffer(f, t, i + 1, SkipLevel(t, j).value);
      } else {
        assert 1 <= i && i + 2 < |f| && f[i - 1] == '+' && f[i] == '/' && f[i + 1] == '#';
      }
    } else {
      WalksDiffer(f, t, i + 1, j + 1);
    }
  }

  /** The code as written accepts an ill-formed filter only when it has that shape. */
  lemma AsWrittenOnInvalidFilters(f: string, t: string)
    requires NoNul(f) && NoNul(t)
    requires AsWritten(f, t) && !ValidFilter(f)
    ensures PlusHashPrefix(f)
  {
    FixedIsReference(f, t);
    WalksDiffer(f, t, 0, 0);
  }

  /** The discrepancy itself: "+/#/b" is no valid filter, yet the code matches it with "a". */
  lemma AsWrittenAcceptsPlusHashSuffix()
    ensures AsWritten("+/#/b", "a") && !Matches("+/#/b", "a")
    ensures !FixedMatches("+/#/b", "a")
  {
    var f, t := "+/#/b", "a";
    assert SkipLevel(t, 0) == Some(1);
    assert Walk(f, t, 1, 1, false);
    assert !WildPlaced(f, 2);
  }
}
