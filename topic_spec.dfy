/**
 * The meaning of topic filters, after section 4.7 of the OASIS MQTT Version 3.1.1
 * standard, stated level by level: a string is split on '/', and a filter's levels
 * are compared with a topic's levels one at a time.  This is the reference the
 * character-walking matcher of MycilaMQTT is proved against.
 */
module TopicSpec {

  /** The two wildcard characters: '+' (single level) and '#' (multi-level). */
  predicate IsWild(c: char) {
    c == '+' || c == '#'
  }

  /** No wildcard character anywhere, as a topic name must be. */
  predicate NoWild(s: string) {
    forall k :: 0 <= k < |s| ==> !IsWild(s[k])
  }

  /** No NUL inside: the string is a C string whose terminator sits at index |s|. */
  predicate NoNul(s: string) {
    forall k :: 0 <= k < |s| ==> s[k] != '\0'
  }

  /** The levels of a string, split on '/', empty levels kept: "a//b" has three. */
  function Split(s: string): (r: seq<string>)
    ensures |r| >= 1
  {
    if s == [] then [""]
    else if s[0] == '/' then [""] + Split(s[1..])
    else var rest := Split(s[1..]); [[s[0]] + rest[0]] + rest[1..]
  }

  /** The inverse of Split: levels joined with '/'. */
  function Join(levels: seq<string>): string {
    if |levels| == 0 then ""
    else if |levels| == 1 then levels[0]
    else levels[0] + "/" + Join(levels[1..])
  }

  /**
   * The placement rules of sections 4.7.1.2 and 4.7.1.3 for the character at k:
   * a '+' fills a whole level, a '#' fills a whole level and is the last one.
   */
  predicate WildPlaced(f: string, k: nat)
    requires k < |f|
  {
    (f[k] == '+' ==> (k == 0 || f[k - 1] == '/') && (k + 1 == |f| || f[k + 1] == '/')) &&
    (f[k] == '#' ==> (k == 0 || f[k - 1] == '/') && k + 1 == |f|)
  }

  /** A well-formed topic filter: non-empty, every wildcard placed as the standard demands. */
  predicate ValidFilter(f: string) {
    |f| > 0 && forall k :: 0 <= k < |f| ==> WildPlaced(f, k)
  }

  /** A topic name: non-empty and free of wildcards. */
  predicate ValidTopic(t: string) {
    |t| > 0 && NoWild(t)
  }

  /**
   * Level-by-level comparison: '#' takes every remaining level, zero included;
   * '+' takes exactly one level, possibly empty; any other level must be equal.
   */
  function LevelsMatch(f: seq<string>, t: seq<string>): bool {
    if f == [] then t == []
    else if f[0] == "#" then true
    else if t == [] then false
    else (f[0] == "+" || f[0] == t[0]) && LevelsMatch(f[1..], t[1..])
  }

  /**
   * The reference matcher.  Section 4.7.2: a topic that begins with '$' is not
   * matched by a filter that begins with a wildcard.
   */
  predicate Matches(f: string, t: string) {
    ValidFilter(f) && ValidTopic(t) &&
    (t[0] == '$' ==> !IsWild(f[0])) &&
    LevelsMatch(Split(f), Split(t))
  }

  // ---------------------------------------------------------------------------
  // Split and Join

  /** Split on a string that starts with a known character. */
  lemma SplitCons(c: char, s: string)
    ensures c == '/' ==> Split([c] + s) == [""] + Split(s)
    ensures c != '/' ==> Split([c] + s) == [[c] + Split(s)[0]] + Split(s)[1..]
  {
    assert ([c] + s)[1..] == s;
  }

  /** The first level is empty exactly when the string is empty or starts with '/'. */
  lemma SplitHead(s: string)
    ensures Split(s)[0] == "" <==> (s == [] || s[0] == '/')
    ensures s != [] && s[0] != '/' ==> Split(s)[0][0] == s[0]
  {
  }

  /** A string of one level only is that level; a string with '/' has more levels. */
  lemma {:induction false} SplitSingle(s: string)
    ensures |Split(s)| == 1 <==> '/' !in s
    ensures |Split(s)| == 1 ==> Split(s)[0] == s
  {
    if s != [] {
      SplitSingle(s[1..]);
      assert s == [s[0]] + s[1..];
    }
  }

  /** A prefix without '/' is glued onto the first level of the rest. */
  lemma {:induction false} SplitLevelPrefix(w: string, z: string)
    requires '/' !in w
    ensures Split(w + z) == [w + Split(z)[0]] + Split(z)[1..]
  {
    if w == [] {
      assert w + z == z;
      assert w + Split(z)[0] == Split(z)[0];
      assert Split(z) == [Split(z)[0]] + Split(z)[1..];
    } else {
      assert w[0] != '/' && '/' !in w[1..] by {
        assert w == [w[0]] + w[1..];
      }
      SplitLevelPrefix(w[1..], z);
      assert w + z == [w[0]] + (w[1..] + z);
      SplitCons(w[0], w[1..] + z);
      assert [w[0]] + (w[1..] + Split(z)[0]) == w + Split(z)[0];
    }
  }

  /** Round trip: joining the levels gives the string back, and no level holds '/'. */
  lemma {:induction false} JoinSplit(s: string)
    ensures Join(Split(s)) == s
    ensures forall k :: 0 <= k < |Split(s)| ==> '/' !in Split(s)[k]
  {
    if s != [] {
      var rest := Split(s[1..]);
      JoinSplit(s[1..]);
      assert s == [s[0]] + s[1..];
      if s[0] == '/' {
        assert Split(s) == [""] + rest;
        assert Join(Split(s)) == "" + "/" + Join(rest);
      } else {
        var r := Split(s);
        assert r == [[s[0]] + rest[0]] + rest[1..];
        if |rest| == 1 {
          assert Join(rest) == rest[0];
        } else {
          assert Join(rest) == rest[0] + "/" + Join(rest[1..]);
          assert r[1..] == rest[1..];
          assert Join(r) == ([s[0]] + rest[0]) + "/" + Join(rest[1..]);
        }
        forall k | 0 <= k < |r| ensures '/' !in r[k] {
          if k > 0 {
            assert r[k] == rest[k];
          } else {
            assert 0 < |rest| && '/' !in rest[0];
          }
        }
      }
    }
  }

  /** The other round trip: splitting joined levels, none holding '/', gives them back. */
  lemma {:induction false} SplitJoin(levels: seq<string>)
    requires |levels| >= 1
    requires forall k :: 0 <= k < |levels| ==> '/' !in levels[k]
    ensures Split(Join(levels)) == levels
  {
    if |levels| == 1 {
      SplitSingle(levels[0]);
    } else {
      var rest := levels[1..];
      SplitJoin(rest);
      assert Join(levels) == levels[0] + ("/" + Join(rest));
      SplitLevelPrefix(levels[0], "/" + Join(rest));
      SplitCons('/', Join(rest));
      assert Split("/" + Join(rest)) == [""] + rest;
      assert levels[0] + Split("/" + Join(rest))[0] == levels[0];
      assert Split("/" + Join(rest))[1..] == rest;
      assert levels == [levels[0]] + rest;
    }
  }

  /** Split is injective: two strings with the same levels are equal. */
  lemma SplitInjective(s: string, u: string)
    requires Split(s) == Split(u)
    ensures s == u
  {
    JoinSplit(s);
    JoinSplit(u);
  }

  // ---------------------------------------------------------------------------
  // LevelsMatch

  /** Every level list matches itself. */
  lemma {:induction false} LevelsMatchReflexive(f: seq<string>)
    ensures LevelsMatch(f, f)
  {
    if f != [] && f[0] != "#" {
      LevelsMatchReflexive(f[1..]);
    }
  }

  /**
   * Without '#', a filter matches exactly the topics with as many levels, each
   * filter level being '+' or equal to the topic level: '+' takes one level and
   * never crosses a '/'.
   */
  lemma {:induction false} LevelsMatchWithoutHash(f: seq<string>, t: seq<string>)
    requires "#" !in f
    ensures LevelsMatch(f, t) <==>
            |f| == |t| && forall k :: 0 <= k < |f| ==> f[k] == "+" || f[k] == t[k]
  {
    if f != [] && t != [] {
      LevelsMatchWithoutHash(f[1..], t[1..]);
      if |f| == |t| && forall k :: 0 <= k < |f[1..]| ==> f[1..][k] == "+" || f[1..][k] == t[1..][k] {
        if f[0] == "+" || f[0] == t[0] {
          forall k | 0 <= k < |f| ensures f[k] == "+" || f[k] == t[k] {
            if k > 0 {
              assert f[1..][k - 1] == f[k] && t[1..][k - 1] == t[k];
            }
          }
        }
      }
      if |f| == |t| && forall k :: 0 <= k < |f| ==> f[k] == "+" || f[k] == t[k] {
        assert f[0] == "+" || f[0] == t[0];
        forall k | 0 <= k < |f[1..]| ensures f[1..][k] == "+" || f[1..][k] == t[1..][k] {
          assert f[1..][k] == f[k + 1] && t[1..][k] == t[k + 1];
        }
      }
    }
  }

  /**
   * A trailing '#' takes all remaining levels, zero included: the filter matches
   * exactly the topics that start with levels the rest of the filter matches.
   */
  lemma {:induction false} LevelsMatchTrailingHash(f: seq<string>, t: seq<string>)
    requires "#" !in f
    ensures LevelsMatch(f + ["#"], t) <==> |t| >= |f| && LevelsMatch(f, t[..|f|])
  {
    if f == [] {
      assert t[..0] == [];
    } else if t != [] {
      assert (f + ["#"])[1..] == f[1..] + ["#"];
      LevelsMatchTrailingHash(f[1..], t[1..]);
      if |t| >= |f| {
        assert t[..|f|][1..] == t[1..][..|f| - 1];
      }
    }
  }

  // ---------------------------------------------------------------------------
  // Matches

  /**
   * Section 4.7.2, in the symmetric form the matcher checks: a match never pairs a
   * '$' topic with a filter that does not start with '$', nor the other way round.
   */
  lemma DollarIsolation(f: string, t: string)
    requires Matches(f, t)
    ensures f[0] == '$' <==> t[0] == '$'
  {
    SplitHead(f);
    SplitHead(t);
  }

  /** A filter without wildcards matches a topic exactly when the two strings are equal. */
  lemma ExactWithoutWildcards(f: string, t: string)
    requires |f| > 0 && NoWild(f)
    ensures Matches(f, t) <==> f == t
  {
    var fs, ts := Split(f), Split(t);
    JoinSplit(f);
    if f == t {
      LevelsMatchReflexive(fs);
    }
    if Matches(f, t) {
      forall k | 0 <= k < |fs| ensures fs[k] != "+" && fs[k] != "#" {
        NoWildLevels(f, k);
      }
      assert "#" !in fs;
      LevelsMatchWithoutHash(fs, ts);
      assert fs == ts;
      SplitInjective(f, t);
    }
  }

  /** A level of a wildcard-free string is not a wildcard level. */
  lemma {:induction false} NoWildLevels(s: string, k: nat)
    requires NoWild(s) && k < |Split(s)|
    ensures Split(s)[k] != "+" && Split(s)[k] != "#"
  {
    if s != [] {
      assert NoWild(s[1..]) by {
        forall m | 0 <= m < |s[1..]| ensures !IsWild(s[1..][m]) {
          assert s[1..][m] == s[m + 1];
        }
      }
      var rest := Split(s[1..]);
      if s[0] == '/' {
        if k > 0 {
          NoWildLevels(s[1..], k - 1);
        }
      } else if k > 0 {
        NoWildLevels(s[1..], k);
        assert Split(s)[k] == rest[k];
      } else {
        assert Split(s)[0][0] == s[0];
      }
    }
  }
}
