/** The rules engine's topic matcher: MQTT wildcards, section 4.7.1 of MQTT 3.1.1. */
module TopicMatch {
  import opened Text

  const SEPARATOR := '/'
  const ANY_LEVEL := "+"
  const ANY_TAIL := "#"

  function Levels(topic: string): seq<string> {
    Split(topic, SEPARATOR)
  }

  /** The levels of a pattern in front of its first `#`. */
  function BeforeTail(pattern: seq<string>): (prefix: seq<string>)
    ensures prefix <= pattern
    ensures ANY_TAIL !in prefix
    ensures |prefix| < |pattern| ==> pattern[|prefix|] == ANY_TAIL
    ensures |prefix| == |pattern| <==> ANY_TAIL !in pattern
  {
    if pattern == [] || pattern[0] == ANY_TAIL then []
    else [pattern[0]] + BeforeTail(pattern[1..])
  }

  predicate LevelMatches(published: string, pattern: string) {
    pattern == ANY_LEVEL || published == pattern
  }

  /** What the standard says, level by level: in front of the first `#` every level is
      matched by its counterpart; the published topic has exactly as many levels,
      or at least as many when there is a `#`. */
  ghost predicate Matches(published: seq<string>, pattern: seq<string>) {
    var prefix := BeforeTail(pattern);
    && (if ANY_TAIL in pattern then |prefix| <= |published| else |prefix| == |published|)
    && forall i | 0 <= i < |prefix| :: LevelMatches(published[i], prefix[i])
  }

  /** The loop of `matchTopic` decides exactly that relation. */
  method MatchTopic(published: string, subscribed: string) returns (matched: bool)
    ensures matched <==> Matches(Levels(published), Levels(subscribed))
  {
    var p := Levels(published);
    var s := Levels(subscribed);
    var n := |p|;
    ghost var prefix := BeforeTail(s);
    for i := 0 to |s|
      invariant i <= |prefix| && i <= n
      invariant forall k | 0 <= k < i :: LevelMatches(p[k], s[k])
    {
      if s[i] == ANY_TAIL {
        return true;
      }
      assert i < |prefix|;
      if i >= n {
        return false;
      }
      if s[i] != ANY_LEVEL && p[i] != s[i] {
        assert !LevelMatches(p[i], prefix[i]);
        return false;
      }
    }
    return |s| == n;
  }

  /** The same relation as a recursion on the levels. */
  predicate MatchesRec(published: seq<string>, pattern: seq<string>) {
    if pattern == [] then published == []
    else if pattern[0] == ANY_TAIL then true
    else published != [] && LevelMatches(published[0], pattern[0]) && MatchesRec(published[1..], pattern[1..])
  }

  lemma {:induction false} RecursionMatches(published: seq<string>, pattern: seq<string>)
    ensures MatchesRec(published, pattern) <==> Matches(published, pattern)
  {
    if pattern != [] && pattern[0] != ANY_TAIL && published != [] {
      RecursionMatches(published[1..], pattern[1..]);
      var prefix := BeforeTail(pattern);
      assert prefix[1..] == BeforeTail(pattern[1..]);
      assert pattern == [pattern[0]] + pattern[1..];
      if MatchesRec(published, pattern) {
        forall i | 0 <= i < |prefix| ensures LevelMatches(published[i], prefix[i]) {
          if i > 0 { assert LevelMatches(published[1..][i - 1], prefix[1..][i - 1]); }
        }
      }
      if Matches(published, pattern) {
        assert LevelMatches(published[0], prefix[0]);
        forall i | 0 <= i < |prefix[1..]| ensures LevelMatches(published[1..][i], prefix[1..][i]) {
          assert LevelMatches(published[i + 1], prefix[i + 1]);
        }
      }
    }
  }

  /** A pattern without wildcard levels matches its own text and nothing else. */
  lemma {:induction false} WildcardFreeIsEquality(published: string, subscribed: string)
    requires ANY_LEVEL !in Levels(subscribed) && ANY_TAIL !in Levels(subscribed)
    ensures Matches(Levels(published), Levels(subscribed)) <==> published == subscribed
  {
    var p, s := Levels(published), Levels(subscribed);
    assert BeforeTail(s) == s;
    JoinOfSplit(published, SEPARATOR);
    JoinOfSplit(subscribed, SEPARATOR);
    if Matches(p, s) {
      forall i | 0 <= i < |s| ensures p[i] == s[i] {
        assert LevelMatches(p[i], s[i]);
      }
      assert p == s;
    }
  }

  /** `a/#` matches `a` itself and everything below it. */
  lemma {:induction false} TailMatchesParentAndBelow(topic: string, below: string)
    ensures Matches(Levels(topic), Levels(topic + "/#"))
    ensures Matches(Levels(topic + "/" + below), Levels(topic + "/#"))
  {
    SplitAppend(topic, "#", SEPARATOR);
    SplitAppend(topic, below, SEPARATOR);
    SplitHead("#", "", SEPARATOR);
    assert topic + [SEPARATOR] + "#" == topic + "/#";
    assert topic + [SEPARATOR] + below == topic + "/" + below;
    var pattern := Levels(topic + "/#");
    assert pattern == Levels(topic) + ["#"];
    assert pattern[|pattern| - 1] == ANY_TAIL;
    assert BeforeTail(pattern) <= Levels(topic);
  }

  lemma {:induction false} ThreeParts(a: string, x: string, b: string)
    requires SEPARATOR !in x
    ensures Levels(a + "/" + x + "/" + b) == Levels(a) + [x] + Levels(b)
  {
    SplitAppend(a + "/" + x, b, SEPARATOR);
    SplitAppend(a, x, SEPARATOR);
    assert a + [SEPARATOR] + x == a + "/" + x;
    assert (a + "/" + x) + [SEPARATOR] + b == a + "/" + x + "/" + b;
    SplitHead(x, "", SEPARATOR);
  }

  /** `a/+/b` matches `a/x/b` for every single level `x` … */
  lemma {:induction false} AnyLevelMatches(a: string, x: string, b: string)
    requires '/' !in x
    ensures Matches(Levels(a + "/" + x + "/" + b), Levels(a + "/" + "+" + "/" + b))
  {
    ThreeParts(a, x, b);
    ThreeParts(a, "+", b);
    var published, pattern := Levels(a) + [x] + Levels(b), Levels(a) + ["+"] + Levels(b);
    assert forall i | 0 <= i < |pattern| :: pattern[i] == published[i] || pattern[i] == "+";
  }

  lemma {:induction false} LevelsForced(p: seq<string>, a: seq<string>, b: seq<string>)
    requires ANY_LEVEL !in a && ANY_TAIL !in a && ANY_LEVEL !in b && ANY_TAIL !in b
    requires Matches(p, a + [ANY_LEVEL] + b)
    ensures |p| == |a| + 1 + |b| && p == a + [p[|a|]] + b
  {
    var pattern := a + [ANY_LEVEL] + b;
    assert BeforeTail(pattern) == pattern;
    forall i | 0 <= i < |pattern| && i != |a| ensures p[i] == pattern[i] {
      assert LevelMatches(p[i], pattern[i]);
      assert pattern[i] in a || pattern[i] in b;
    }
  }

  /** … and, if `a` and `b` have no wildcards, nothing else. */
  lemma {:induction false} AnyLevelMatchesOnly(a: string, b: string, published: string) returns (x: string)
    requires "+" !in Levels(a) && "#" !in Levels(a) && "+" !in Levels(b) && "#" !in Levels(b)
    requires Matches(Levels(published), Levels(a + "/" + "+" + "/" + b))
    ensures '/' !in x && published == a + "/" + x + "/" + b
  {
    ThreeParts(a, "+", b);
    LevelsForced(Levels(published), Levels(a), Levels(b));
    x := Levels(published)[|Levels(a)|];
    assert x in Levels(published);
    ThreeParts(a, x, b);
    JoinOfSplit(published, SEPARATOR);
    JoinOfSplit(a + "/" + x + "/" + b, SEPARATOR);
  }

  /** Widening one level to `+` loses no match … */
  lemma {:induction false} LevelWideningKeepsMatches(published: seq<string>, pattern: seq<string>, i: nat)
    requires i < |pattern| && pattern[i] != ANY_TAIL
    requires Matches(published, pattern)
    ensures Matches(published, pattern[i := ANY_LEVEL])
  {
    BeforeTailUpdate(pattern, i);
  }

  lemma {:induction false} BeforeTailUpdate(pattern: seq<string>, i: nat)
    requires i < |pattern| && pattern[i] != ANY_TAIL
    ensures ANY_TAIL in pattern <==> ANY_TAIL in pattern[i := ANY_LEVEL]
    ensures BeforeTail(pattern[i := ANY_LEVEL])
         == if i < |BeforeTail(pattern)| then BeforeTail(pattern)[i := ANY_LEVEL] else BeforeTail(pattern)
  {
    var wide := pattern[i := ANY_LEVEL];
    var prefix := BeforeTail(pattern);
    var wprefix := BeforeTail(wide);
    if ANY_TAIL in pattern {
      assert wide[|prefix|] == ANY_TAIL;
    }
    if ANY_TAIL in wide {
      assert pattern[|wprefix|] == ANY_TAIL;
    }
  }

  /** … and so does replacing any tail of the pattern by `#`. */
  lemma {:induction false} TailWideningKeepsMatches(published: seq<string>, pattern: seq<string>, i: nat)
    requires i <= |pattern|
    requires Matches(published, pattern)
    ensures Matches(published, pattern[..i] + [ANY_TAIL])
  {
    var wide := pattern[..i] + [ANY_TAIL];
    var prefix, wprefix := BeforeTail(pattern), BeforeTail(wide);
    assert wide[i] == ANY_TAIL && |wprefix| <= i;
    assert forall k | 0 <= k < |wprefix| :: pattern[k] == wprefix[k] != ANY_TAIL;
    assert |wprefix| <= |prefix|;
    assert wprefix <= prefix;
  }

  /** Widening `#` itself to `+` is not a widening: it loses a match exactly when the
      position holds the first `#`. */
  lemma {:induction false} WideningTheTailLosesMatches(pattern: seq<string>, i: nat)
    requires i < |pattern|
    ensures (forall published :: Matches(published, pattern) ==> Matches(published, pattern[i := ANY_LEVEL]))
       <==> !(pattern[i] == ANY_TAIL && ANY_TAIL !in pattern[..i])
  {
    var wide := pattern[i := ANY_LEVEL];
    if pattern[i] != ANY_TAIL {
      forall published | Matches(published, pattern) ensures Matches(published, wide) {
        LevelWideningKeepsMatches(published, pattern, i);
      }
    } else if ANY_TAIL in pattern[..i] {
      var prefix, wprefix := BeforeTail(pattern), BeforeTail(wide);
      assert |prefix| < i && wide[|prefix|] == ANY_TAIL;
      assert prefix == wprefix;
    } else {
      var parent := pattern[..i];
      assert BeforeTail(pattern) == parent;
      assert Matches(parent, pattern);
      assert |BeforeTail(wide)| > i;
      assert !Matches(parent, wide);
    }
  }
}
