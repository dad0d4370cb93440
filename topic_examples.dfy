/**
 * The behaviours of `_topicMatches` (src/MycilaMQTT.cpp:170-259) that its
 * comments and the wildcard rules of the MQTT standard call out, stated on the
 * code as written (`AsWritten`), both in general and on the standard's examples.
 */
module TopicExamples {
  import opened TopicSpec
  import opened TopicMatcher

  /** Without wildcards the code matches a topic exactly when the two strings are equal. */
  lemma AsWrittenExact(f: string, t: string)
    requires NoNul(f) && NoNul(t) && |f| > 0 && NoWild(f)
    ensures AsWritten(f, t) <==> f == t
  {
    ExactWithoutWildcards(f, t);
    AsWrittenOnValidFilters(f, t);
  }

  /** A wildcard-free topic matches itself. */
  lemma AsWrittenSelf(t: string)
    requires NoNul(t) && |t| > 0 && NoWild(t)
    ensures AsWritten(t, t)
  {
    AsWrittenExact(t, t);
  }

  /** An ill-formed filter without a "+/#" inside matches no topic at all. */
  lemma AsWrittenRejects(f: string, t: string)
    requires NoNul(f) && NoNul(t) && !ValidFilter(f) && !PlusHashPrefix(f)
    ensures !AsWritten(f, t)
  {
    if AsWritten(f, t) {
      AsWrittenOnInvalidFilters(f, t);
    }
  }

  /** '+' must fill a whole level: "foo+", "+foo" and "a/+foo" match nothing. */
  lemma PlusMustFillLevel(t: string)
    requires NoNul(t)
    ensures !AsWritten("foo+", t) && !AsWritten("+foo", t) && !AsWritten("a/+foo", t)
  {
  }

  /** '#' must be the last, whole level: "foo#" and "sport/#/ranking" match nothing. */
  lemma HashMustEndFilter(t: string)
    requires NoNul(t)
    ensures !AsWritten("foo#", t) && !AsWritten("sport/#/ranking", t)
  {
  }

  /** A verdict of the reference on C strings is the verdict of the code as written. */
  lemma ViaReference(f: string, t: string)
    requires NoNul(f) && NoNul(t)
    ensures Matches(f, t) ==> AsWritten(f, t)
    ensures ValidFilter(f) && !Matches(f, t) ==> !AsWritten(f, t)
  {
    AsWrittenOnValidFilters(f, t);
  }

  /** '+' takes one level, possibly empty: "a/+" matches "a/" and "a/+/c" matches "a/b/c". */
  lemma PlusTakesOneLevel()
    ensures AsWritten("a/+", "a/") && AsWritten("a/+/c", "a/b/c")
  {
  }

  lemma SplitOfRanking()
    ensures Split("sport/tennis/player1/ranking") == ["sport", "tennis", "player1", "ranking"]
  {
    assert Join(["sport", "tennis", "player1", "ranking"]) == "sport/tennis/player1/ranking";
    SplitJoin(["sport", "tennis", "player1", "ranking"]);
  }

  lemma SplitOfTennisPlus()
    ensures Split("sport/tennis/+") == ["sport", "tennis", "+"]
  {
    assert Join(["sport", "tennis", "+"]) == "sport/tennis/+";
    SplitJoin(["sport", "tennis", "+"]);
  }

  lemma TennisPlusMissesRanking()
    ensures !Matches("sport/tennis/+", "sport/tennis/player1/ranking")
  {
    SplitOfRanking();
    SplitOfTennisPlus();
    LevelsMatchWithoutHash(["sport", "tennis", "+"], ["sport", "tennis", "player1", "ranking"]);
  }

  /** '+' never crosses a '/': "sport/tennis/+" does not match "sport/tennis/player1/ranking". */
  lemma PlusStaysInLevel()
    ensures !AsWritten("sport/tennis/+", "sport/tennis/player1/ranking")
  {
    TennisPlusMissesRanking();
    assert ValidFilter("sport/tennis/+");
    ViaReference("sport/tennis/+", "sport/tennis/player1/ranking");
  }

  /** "foo/#" matches its parent "foo" and its descendants; "foo/+/#" matches "foo/bar". */
  lemma HashTakesRemainingLevels()
    ensures AsWritten("foo/#", "foo") && AsWritten("foo/#", "foo/bar/baz")
    ensures AsWritten("foo/+/#", "foo/bar")
  {
  }

  /** '$' topics: "#" and "+/x" do not match "$SYS/x", "$SYS/#" does. */
  lemma DollarTopics()
    ensures !AsWritten("#", "$SYS/x") && !AsWritten("+/x", "$SYS/x")
    ensures AsWritten("$SYS/#", "$SYS/x")
  {
  }
}
