/** Topic filters: mqtt_topic_matches of server/broker.py against sections 4.7.1.2 and 4.7.1.3 of MQTT 3.1.1. */
module MqttTopics {

  import opened Common
  import opened MqttCodec

  type Level = bytes

  const SLASH: octet := 47
  const HASH: octet := 35
  const PLUS: octet := 43

  lemma Separators()
    ensures '/' as int == SLASH && '#' as int == HASH && '+' as int == PLUS
  {
  }

  /** The levels of a filter or a topic name; an empty text has one empty level. */
  function Split(s: bytes): (levels: seq<Level>)
    ensures |levels| >= 1
  {
    if s == [] then [[]]
    else
      var rest := Split(s[1..]);
      if s[0] == SLASH then [[]] + rest else [[s[0]] + rest[0]] + rest[1..]
  }

  function Join(levels: seq<Level>): bytes
    requires |levels| >= 1
  {
    if |levels| == 1 then levels[0] else levels[0] + [SLASH] + Join(levels[1..])
  }

  ghost predicate SlashFree(levels: seq<Level>) {
    forall level :: level in levels ==> SLASH !in level
  }

  /** Splitting and joining are inverse, so no two texts have the same levels and every list of levels is one text. */
  lemma {:induction false} JoinSplit(s: bytes)
    ensures SlashFree(Split(s)) && Join(Split(s)) == s
  {
    if s != [] {
      var rest, levels := Split(s[1..]), Split(s);
      JoinSplit(s[1..]);
      if s[0] == SLASH {
        assert levels[1..] == rest;
      } else {
        assert levels[1..] == rest[1..];
        assert rest[0] in rest && forall l :: l in rest[1..] ==> l in rest;
        assert Join(levels) == [s[0]] + Join(rest);
      }
    }
  }

  lemma {:induction false} SplitJoin(levels: seq<Level>)
    requires |levels| >= 1 && SlashFree(levels)
    ensures Split(Join(levels)) == levels
    decreases |levels|, |levels[0]|
  {
    var first, s := levels[0], Join(levels);
    assert first in levels;
    if first != [] {
      var shorter := [first[1..]] + levels[1..];
      assert shorter[1..] == levels[1..];
      assert s[1..] == Join(shorter);
      assert forall l :: l in levels[1..] ==> l in levels;
      SplitJoin(shorter);
      assert [first[0]] + first[1..] == first;
    } else if |levels| > 1 {
      assert s[1..] == Join(levels[1..]);
      SplitJoin(levels[1..]);
    }
  }

  // ----- What the code decides -----

  predicate LevelMatches(pattern: Level, level: Level) {
    pattern == [PLUS] || pattern == level
  }

  /** Position of the first "#" level; the number of levels when there is none. */
  function FirstHash(pattern: seq<Level>): (p: nat)
    ensures p <= |pattern| && (p < |pattern| ==> pattern[p] == [HASH])
    ensures forall i :: 0 <= i < p ==> pattern[i] != [HASH]
  {
    if pattern == [] || pattern[0] == [HASH] then 0 else 1 + FirstHash(pattern[1..])
  }

  ghost predicate Agree(pattern: seq<Level>, topic: seq<Level>, n: nat)
    requires n <= |pattern| && n <= |topic|
  {
    forall i :: 0 <= i < n ==> LevelMatches(pattern[i], topic[i])
  }

  /** Every level before the first "#" meets one level of the topic; without a "#", none of the topic is left over. */
  ghost predicate Accepts(pattern: seq<Level>, topic: seq<Level>) {
    var p := FirstHash(pattern);
    && p <= |topic|
    && (p == |pattern| ==> p == |topic|)
    && Agree(pattern, topic, p)
  }

  lemma NothingYet(pattern: seq<Level>, topic: seq<Level>)
    ensures Agree(pattern, topic, 0)
  {
  }

  /** What is settled once the first `i` levels agree. */
  lemma AfterAgreeing(pattern: seq<Level>, topic: seq<Level>, i: nat)
    requires i <= FirstHash(pattern) && i <= |topic| && Agree(pattern, topic, i)
    ensures i < |pattern| && pattern[i] == [HASH] ==> Accepts(pattern, topic)
    ensures i < |pattern| && i < |topic| && pattern[i] != [HASH] ==> i < FirstHash(pattern)
    ensures i < |pattern| && i < |topic| && pattern[i] != [HASH] && !LevelMatches(pattern[i], topic[i]) ==> !Accepts(pattern, topic)
    ensures i < |pattern| && i < |topic| && LevelMatches(pattern[i], topic[i]) ==> Agree(pattern, topic, i + 1)
    ensures i == |pattern| ==> (Accepts(pattern, topic) <==> i == |topic|)
    ensures i < |pattern| && i == |topic| && pattern[i] != [HASH] ==> !Accepts(pattern, topic)
  {
  }

  method TopicMatches(pattern: bytes, topic: bytes) returns (matches: bool)
    ensures matches == Accepts(Split(pattern), Split(topic))
  {
    hide Accepts, Agree, FirstHash, Split;
    var patternParts, topicParts := Split(pattern), Split(topic);
    NothingYet(patternParts, topicParts);
    var pi, ti := 0, 0;
    while pi < |patternParts| && ti < |topicParts|
      invariant pi == ti <= FirstHash(patternParts) && ti <= |topicParts|
      invariant Agree(patternParts, topicParts, pi)
    {
      AfterAgreeing(patternParts, topicParts, pi);
      if patternParts[pi] == [HASH] {
        return true;
      }
      if patternParts[pi] == [PLUS] {
        pi, ti := pi + 1, ti + 1;
        continue;
      }
      if patternParts[pi] != topicParts[ti] {
        return false;
      }
      pi, ti := pi + 1, ti + 1;
    }
    AfterAgreeing(patternParts, topicParts, pi);
    if pi < |patternParts| && patternParts[pi] == [HASH] {
      return true;
    }
    return pi == |patternParts| && ti == |topicParts|;
  }

  // ----- What the standard says -----

  /** Sections 4.7.1.2 and 4.7.1.3: "#" only as the last level, each wildcard alone in its level. */
  ghost predicate WellFormed(filter: seq<Level>) {
    forall i :: 0 <= i < |filter| ==>
      (HASH in filter[i] ==> filter[i] == [HASH] && i == |filter| - 1) && (PLUS in filter[i] ==> filter[i] == [PLUS])
  }

  /** "+" stands for exactly one level, a final "#" for its parent and any number of levels below it. */
  predicate StandardMatches(filter: seq<Level>, topic: seq<Level>) {
    if filter == [[HASH]] then true
    else if filter == [] || topic == [] then filter == [] && topic == []
    else (filter[0] == [PLUS] || filter[0] == topic[0]) && StandardMatches(filter[1..], topic[1..])
  }

  /** On well-formed filters the two-pointer loop decides what the standard says, whatever the topic. */
  lemma {:induction false} MatcherMeetsStandard(filter: seq<Level>, topic: seq<Level>)
    requires WellFormed(filter)
    ensures Accepts(filter, topic) <==> StandardMatches(filter, topic)
  {
    if filter == [] {
    } else if filter[0] == [HASH] {
      assert HASH in filter[0];
      assert filter == [[HASH]];
    } else if topic != [] {
      assert WellFormed(filter[1..]) by {
        assert forall i :: 0 <= i < |filter[1..]| ==> filter[1..][i] == filter[i + 1];
      }
      MatcherMeetsStandard(filter[1..], topic[1..]);
      var p, q := FirstHash(filter), FirstHash(filter[1..]);
      assert p == q + 1;
      if p <= |topic| {
        AgreeStep(filter, topic, p);
      }
    }
  }

  lemma AgreeStep(filter: seq<Level>, topic: seq<Level>, n: nat)
    requires 0 < n <= |filter| && n <= |topic|
    ensures Agree(filter, topic, n) <==> LevelMatches(filter[0], topic[0]) && Agree(filter[1..], topic[1..], n - 1)
  {
    if LevelMatches(filter[0], topic[0]) && Agree(filter[1..], topic[1..], n - 1) {
      forall i | 0 <= i < n ensures LevelMatches(filter[i], topic[i]) {
        if i > 0 {
          assert LevelMatches(filter[1..][i - 1], topic[1..][i - 1]);
        }
      }
    }
  }

  /** On every filter, well formed or not: what follows the first "#" is ignored, so the standard applies to the rest.
      */
  lemma MatcherIgnoresTail(filter: seq<Level>, topic: seq<Level>)
    ensures var p := FirstHash(filter);
            Accepts(filter, topic) <==> Accepts(if p < |filter| then filter[..p + 1] else filter, topic)
  {
    var p := FirstHash(filter);
    if p < |filter| {
      var cut := filter[..p + 1];
      assert FirstHash(cut) == p;
      if p <= |topic| {
        assert Agree(cut, topic, p) <==> Agree(filter, topic, p);
      }
    }
  }

  /** "a/#" takes the parent "a" and everything below it; "+" takes one level only. */
  lemma ParentLevel(parent: seq<Level>, below: seq<Level>)
    requires parent != [] && WellFormed(parent) && forall l :: l in parent ==> HASH !in l
    ensures Accepts(parent + [[HASH]], parent + below)
    ensures Accepts(parent + [[PLUS]], parent + below) <==> |below| == 1
  {
    var hash, plus, topic := parent + [[HASH]], parent + [[PLUS]], parent + below;
    assert hash[|parent|] == [HASH];
    assert forall i :: 0 <= i < |parent| ==> hash[i] == parent[i] && parent[i] in parent && HASH !in hash[i];
    assert HASH in [HASH];
    assert FirstHash(hash) == |parent|;
    assert Agree(hash, topic, |parent|);
    assert forall l :: l in plus ==> l in parent || l == [PLUS];
    assert FirstHash(plus) == |plus|;
    if |below| == 1 {
      assert Agree(plus, topic, |plus|);
    }
  }
}
