/** Best-match playback of recorded model responses (src/agent/src/agents/patch_vcr.py). */
module Replay {
  import opened Base

  /** A message's content: a string, blocks of which each carries some text, or another structure. */
  datatype Content = Plain(text: string) | Blocks(texts: seq<string>) | Structure(json: string)

  datatype Message = Message(role: string, content: Content, rest: string)

  /** A request body: a chat, with everything besides its messages, or anything else. */
  datatype Body = Chat(messages: seq<Message>, rest: string) | Other(text: string)

  function Concat(texts: seq<string>): string {
    if texts == [] then "" else texts[0] + Concat(texts[1..])
  }

  /** Tool results lose their wrapping. */
  function Unwrap(content: Content): string {
    match content
    case Plain(text) => text
    case Blocks(texts) => Concat(texts)
    case Structure(json) => json
  }

  function NormalizeMessage(m: Message): Message {
    if m.role == "tool" then m.(content := Plain(Unwrap(m.content))) else m
  }

  function Normalize(messages: seq<Message>): (r: seq<Message>)
    ensures |r| == |messages|
  {
    seq(|messages|, i requires 0 <= i < |messages| => NormalizeMessage(messages[i]))
  }

  /** What is turned into text and compared: a body, some messages or one message. */
  datatype Subject = OfBody(body: Body) | OfMessages(messages: seq<Message>) | OfMessage(message: Message)

  type Ratio = x: real | 0.0 <= x <= 1.0

  function Similarity(r1: Body, r2: Body, ratio: (Subject, Subject) -> Ratio): Ratio {
    if !r1.Chat? || !r2.Chat? then ratio(OfBody(r1), OfBody(r2))
    else if |r1.messages| != |r2.messages| then 0.0
    else if r1.messages == [] then 1.0
    else
      var n1, n2 := Normalize(r1.messages), Normalize(r2.messages);
      0.4 * ratio(OfMessages(n1), OfMessages(n2))
      + 0.6 * ratio(OfMessage(n1[|n1| - 1]), OfMessage(n2[|n2| - 1]))
  }

  /** What playback tells apart: the unwrapped messages of a chat, or any other body as a whole. */
  datatype Turn = Turn(messages: seq<Message>) | Whole(body: Body)

  function TurnOf(b: Body): Turn {
    if b.Chat? then Turn(Normalize(b.messages)) else Whole(b)
  }

  /** A ratio of 1 means the same text. */
  ghost predicate Sharp(ratio: (Subject, Subject) -> Ratio) {
    forall x, y {:trigger ratio(x, y)} :: ratio(x, y) == 1.0 <==> x == y
  }

  // ---- What a tool result says ----

  /** Where block i of some texts begins when they are written one after another. */
  function Offset(texts: seq<string>, i: nat): nat
    requires i <= |texts|
  {
    if i == 0 then 0 else Offset(texts, i - 1) + |texts[i - 1]|
  }

  /** Block i stands in the text where it begins. */
  predicate BlockStands(texts: seq<string>, i: nat, text: string)
    requires i < |texts|
  {
    var o := Offset(texts, i);
    o + |texts[i]| <= |text| && text[o..o + |texts[i]|] == texts[i]
  }

  /** The text is what the content says: its own, or all its blocks one after another. */
  ghost predicate Says(content: Content, text: string) {
    match content
    case Plain(t) => text == t
    case Structure(json) => text == json
    case Blocks(texts) =>
      |text| == Offset(texts, |texts|) && forall i :: 0 <= i < |texts| ==> BlockStands(texts, i, text)
  }

  lemma {:induction false} OffsetTail(texts: seq<string>, i: nat)
    requires 1 <= i <= |texts|
    ensures Offset(texts, i) == |texts[0]| + Offset(texts[1..], i - 1)
  {
    if i > 1 {
      OffsetTail(texts, i - 1);
    }
  }

  lemma BlockShifts(texts: seq<string>, i: nat, text: string)
    requires 1 <= i < |texts| && BlockStands(texts[1..], i - 1, text)
    ensures BlockStands(texts, i, texts[0] + text)
  {
    OffsetTail(texts, i);
    assert texts[1..][i - 1] == texts[i];
    SliceShifts(texts[0], text, Offset(texts[1..], i - 1), |texts[i]|);
  }

  lemma SliceShifts(a: string, text: string, o: nat, n: nat)
    requires o + n <= |text|
    ensures (a + text)[|a| + o..|a| + o + n] == text[o..o + n]
  {
  }

  lemma {:induction false} ConcatSays(texts: seq<string>)
    ensures Says(Blocks(texts), Concat(texts))
  {
    if texts != [] {
      hide BlockStands;
      var rest := texts[1..];
      ConcatSays(rest);
      OffsetTail(texts, |texts|);
      forall i | 0 <= i < |texts|
        ensures BlockStands(texts, i, texts[0] + Concat(rest))
      {
        if i > 0 {
          BlockShifts(texts, i, Concat(rest));
        } else {
          FirstStands(texts, Concat(rest));
        }
      }
    }
  }

  lemma FirstStands(texts: seq<string>, text: string)
    requires texts != []
    ensures BlockStands(texts, 0, texts[0] + text)
  {
  }

  lemma {:induction false} OneText(texts: seq<string>, a: string, b: string)
    requires Says(Blocks(texts), a) && Says(Blocks(texts), b)
    ensures a == b
  {
    OneTextUpTo(texts, a, b, |texts|);
    assert a[..|a|] == a && b[..|b|] == b;
  }

  lemma {:induction false} OneTextUpTo(texts: seq<string>, a: string, b: string, n: nat)
    requires Says(Blocks(texts), a) && Says(Blocks(texts), b) && n <= |texts|
    ensures Offset(texts, n) <= |a| && Offset(texts, n) <= |b| && a[..Offset(texts, n)] == b[..Offset(texts, n)]
  {
    if n > 0 {
      OneTextUpTo(texts, a, b, n - 1);
      assert BlockStands(texts, n - 1, a) && BlockStands(texts, n - 1, b);
      PrefixGrows(a, Offset(texts, n - 1), Offset(texts, n));
      PrefixGrows(b, Offset(texts, n - 1), Offset(texts, n));
    }
  }

  lemma PrefixGrows(s: string, i: nat, j: nat)
    requires i <= j <= |s|
    ensures s[..j] == s[..i] + s[i..j]
  {
  }

  /** Unwrapping gives the one text that the content says. */
  lemma UnwrapSays(content: Content, text: string)
    ensures Says(content, text) <==> text == Unwrap(content)
  {
    if content.Blocks? {
      ConcatSays(content.texts);
      if Says(content, text) {
        OneText(content.texts, text, Concat(content.texts));
      }
    }
  }

  /** Blocks read as one text after the other, and a single block as its plain text. */
  lemma {:induction false} BlocksJoin(a: seq<string>, b: seq<string>, t: string)
    ensures Unwrap(Blocks(a + b)) == Unwrap(Blocks(a)) + Unwrap(Blocks(b))
    ensures Unwrap(Blocks([t])) == Unwrap(Plain(t)) == t
  {
    if a == [] {
      assert a + b == b;
    } else {
      BlocksJoin(a[1..], b, t);
      assert (a + b)[1..] == a[1..] + b;
    }
    assert [t][1..] == [] && Concat([t]) == t + Concat([]);
  }

  /** The same message, but that the text of tool results may be wrapped differently. */
  ghost predicate SameMessage(m: Message, n: Message) {
    if m.role == "tool" then
      && n.role == "tool" && m.rest == n.rest
      && exists text :: Says(m.content, text) && Says(n.content, text)
    else m == n
  }

  ghost predicate SameMessages(a: seq<Message>, b: seq<Message>) {
    |a| == |b| && forall i :: 0 <= i < |a| ==> SameMessage(a[i], b[i])
  }

  lemma NormalizingTells(m: Message, n: Message)
    ensures NormalizeMessage(m) == NormalizeMessage(n) <==> SameMessage(m, n)
  {
    UnwrapSays(m.content, Unwrap(m.content));
    UnwrapSays(n.content, Unwrap(m.content));
    UnwrapSays(n.content, Unwrap(n.content));
    if m.role == "tool" && n.role == "tool" {
      forall text
        ensures Says(m.content, text) && Says(n.content, text) <==> text == Unwrap(m.content) == Unwrap(n.content)
      {
        UnwrapSays(m.content, text);
        UnwrapSays(n.content, text);
      }
    }
  }

  lemma NormalizationTells(a: seq<Message>, b: seq<Message>)
    ensures Normalize(a) == Normalize(b) <==> SameMessages(a, b)
  {
    hide NormalizeMessage, SameMessage;
    if |a| == |b| {
      forall i | 0 <= i < |a|
        ensures Normalize(a)[i] == Normalize(b)[i] <==> SameMessage(a[i], b[i])
      {
        NormalizingTells(a[i], b[i]);
      }
      assert Normalize(a) == Normalize(b) <==> forall i :: 0 <= i < |a| ==> Normalize(a)[i] == Normalize(b)[i];
    }
  }

  /** Requests of the same turn: chats of the same messages, whatever else they say (the model, the tools) and however
      tool results are wrapped, or the same other body. */
  ghost predicate SameTurn(r1: Body, r2: Body) {
    if r1.Chat? && r2.Chat? then SameMessages(r1.messages, r2.messages) else r1 == r2
  }

  lemma TurnTells(r1: Body, r2: Body)
    ensures TurnOf(r1) == TurnOf(r2) <==> SameTurn(r1, r2)
  {
    if r1.Chat? && r2.Chat? {
      NormalizationTells(r1.messages, r2.messages);
    }
  }

  /** Similarity is 1 exactly for requests of the same turn. */
  lemma SimilarityTellsTurns(r1: Body, r2: Body, ratio: (Subject, Subject) -> Ratio)
    requires Sharp(ratio)
    ensures Similarity(r1, r2, ratio) == 1.0 <==> SameTurn(r1, r2)
    ensures Similarity(r1, r2, ratio) == 1.0 <==> TurnOf(r1) == TurnOf(r2)
  {
    TurnTells(r1, r2);
    if r1.Chat? && r2.Chat? && |r1.messages| == |r2.messages| && r1.messages != [] {
      var n1, n2 := Normalize(r1.messages), Normalize(r2.messages);
      assert n1 == n2 ==> n1[|n1| - 1] == n2[|n2| - 1];
    }
  }

  /** The score of a recorded request against a live one, None when computing it raises, and the threshold. */
  datatype Matcher = Matcher(score: (Body, Body) -> Option<Ratio>, threshold: real) {
    function Score(recorded: Body, live: Body): Ratio {
      var s := score(recorded, live);
      if s.Some? then s.value else 0.0
    }
  }

  // ---- One pick ----

  ghost predicate Eligible(m: Matcher, recorded: seq<Body>, counts: seq<nat>, live: Body, i: nat)
    requires |counts| == |recorded|
  {
    i < |recorded| && counts[i] == 0 && m.Score(recorded[i], live) >= m.threshold
  }

  ghost predicate NoBetter(m: Matcher, recorded: seq<Body>, live: Body, i: nat, j: nat)
    requires i < |recorded| && j < |recorded|
  {
    && m.Score(recorded[j], live) <= m.Score(recorded[i], live)
    && (j < i ==> m.Score(recorded[j], live) < m.Score(recorded[i], live))
  }

  /** The first of the best entries not played yet. */
  ghost predicate IsPick(m: Matcher, recorded: seq<Body>, counts: seq<nat>, live: Body, i: nat)
    requires |counts| == |recorded|
  {
    && Eligible(m, recorded, counts, live, i)
    && forall j :: Eligible(m, recorded, counts, live, j) ==> NoBetter(m, recorded, live, i, j)
  }

  ghost function Pick(m: Matcher, recorded: seq<Body>, counts: seq<nat>, live: Body): Option<nat>
    requires |counts| == |recorded|
  {
    if i: nat :| IsPick(m, recorded, counts, live, i) then Some(i) else None
  }

  lemma PickIs(m: Matcher, recorded: seq<Body>, counts: seq<nat>, live: Body, i: nat)
    requires |counts| == |recorded|
    ensures Pick(m, recorded, counts, live) == Some(i) <==> IsPick(m, recorded, counts, live, i)
  {
    var pick := Pick(m, recorded, counts, live);
    if IsPick(m, recorded, counts, live, i) {
      assert NoBetter(m, recorded, live, i, pick.value) && NoBetter(m, recorded, live, pick.value, i);
    }
  }

  // ---- What a pick is, in terms of the scores themselves ----

  /** The entry scores x; an entry whose score cannot be computed scores nothing. */
  ghost predicate Scores(m: Matcher, recorded: Body, live: Body, x: real) {
    m.score(recorded, live) == Some(x) || (m.score(recorded, live).None? && x == 0.0)
  }

  /** Entry i was not played, scores x, which is enough, and every other such entry scores less, or as much and comes
      later. */
  ghost predicate FirstBest(m: Matcher, recorded: seq<Body>, counts: seq<nat>, live: Body, i: nat, x: real)
    requires |counts| == |recorded|
  {
    && i < |recorded| && counts[i] == 0 && Scores(m, recorded[i], live, x) && x >= m.threshold
    && forall j: nat, y :: j < |recorded| && counts[j] == 0 && j != i && Scores(m, recorded[j], live, y) ==>
         y < x || (y == x && i < j)
  }

  lemma PickIsFirstBest(m: Matcher, recorded: seq<Body>, counts: seq<nat>, live: Body, i: nat)
    requires |counts| == |recorded|
    ensures Pick(m, recorded, counts, live) == Some(i) <==> exists x :: FirstBest(m, recorded, counts, live, i, x)
  {
    PickIs(m, recorded, counts, live, i);
    if IsPick(m, recorded, counts, live, i) {
      var x := m.Score(recorded[i], live);
      forall j: nat, y | j < |recorded| && counts[j] == 0 && j != i && Scores(m, recorded[j], live, y)
        ensures y < x || (y == x && i < j)
      {
        assert y == m.Score(recorded[j], live);
        if y >= m.threshold {
          assert NoBetter(m, recorded, live, i, j);
        }
      }
      assert FirstBest(m, recorded, counts, live, i, x);
    }
    if x :| FirstBest(m, recorded, counts, live, i, x) {
      forall j: nat | Eligible(m, recorded, counts, live, j)
        ensures NoBetter(m, recorded, live, i, j)
      {
        if j != i {
          assert Scores(m, recorded[j], live, m.Score(recorded[j], live));
        }
      }
    }
  }

  /** With the default threshold of 0.85: a newest message that is less than three quarters alike never matches, and
      one that is the same matches exactly when the whole conversations are at least five eighths alike. */
  lemma NewestMessageDecides(r1: Body, r2: Body, ratio: (Subject, Subject) -> Ratio)
    requires r1.Chat? && r2.Chat? && |r1.messages| == |r2.messages| > 0
    ensures
      var n1, n2 := Normalize(r1.messages), Normalize(r2.messages);
      var whole := ratio(OfMessages(n1), OfMessages(n2));
      var newest := ratio(OfMessage(n1[|n1| - 1]), OfMessage(n2[|n2| - 1]));
      && (newest < 0.75 ==> Similarity(r1, r2, ratio) < 0.85)
      && (newest == 1.0 ==> (Similarity(r1, r2, ratio) >= 0.85 <==> whole >= 0.625))
      && (whole == 1.0 ==> (Similarity(r1, r2, ratio) >= 0.85 <==> newest >= 0.75))
  {
  }

  /** vcrpy's cassette: the recorded pairs and how often each has been played. */
  class Cassette {
    const requests: seq<Body>
    const responses: seq<string>
    var playCounts: seq<nat>

    ghost predicate Valid()
      reads this
    {
      |responses| == |requests| == |playCounts|
    }

    constructor (requests: seq<Body>, responses: seq<string>)
      requires |requests| == |responses|
      ensures Valid() && this.requests == requests && this.responses == responses
      ensures playCounts == Unplayed(|requests|)
    {
      this.requests, this.responses := requests, responses;
      playCounts := Unplayed(|requests|);
    }

    /** None stands for UnhandledHTTPRequestError. */
    method PlayResponse(m: Matcher, request: Body) returns (response: Option<string>)
      requires Valid()
      modifies this
      ensures Valid()
      ensures playCounts == Played(old(playCounts), Pick(m, requests, old(playCounts), request))
      ensures
        var pick := Pick(m, requests, old(playCounts), request);
        response == if pick.Some? then Some(responses[pick.value]) else None
      ensures response.Some? ==> exists i: nat, x ::
        && i < |requests| && FirstBest(m, requests, old(playCounts), request, i, x)
        && response == Some(responses[i]) && playCounts == old(playCounts)[i := 1]
      ensures response.None? ==>
        && playCounts == old(playCounts)
        && forall i: nat, x :: i < |requests| ==> !FirstBest(m, requests, old(playCounts), request, i, x)
    {
      var best: Option<nat> := None;
      var bestScore := -1.0;
      var idx := 0;
      while idx < |requests|
        invariant 0 <= idx <= |requests|
        invariant best.None? ==> bestScore == -1.0
        invariant best.None? ==> forall j: nat :: j < idx ==> !Eligible(m, requests, playCounts, request, j)
        invariant best.Some? ==>
          && best.value < idx
          && Eligible(m, requests, playCounts, request, best.value)
          && bestScore == m.Score(requests[best.value], request)
          && forall j: nat :: j < idx && Eligible(m, requests, playCounts, request, j) ==>
              NoBetter(m, requests, request, best.value, j)
        invariant playCounts == old(playCounts)
      {
        if playCounts[idx] == 0 {
          var score := m.Score(requests[idx], request);
          if score >= m.threshold && score > bestScore {
            bestScore := score;
            best := Some(idx);
          }
        }
        idx := idx + 1;
      }
      if best.None? {
        forall i: nat, x | i < |requests|
          ensures !FirstBest(m, requests, playCounts, request, i, x)
        {
          PickIsFirstBest(m, requests, playCounts, request, i);
        }
        return None;
      }
      PickIs(m, requests, playCounts, request, best.value);
      PickIsFirstBest(m, requests, playCounts, request, best.value);
      playCounts := playCounts[best.value := playCounts[best.value] + 1];
      response := Some(responses[best.value]);
    }
  }

  function Unplayed(n: nat): (counts: seq<nat>)
    ensures |counts| == n && forall i :: 0 <= i < n ==> counts[i] == 0
  {
    seq(n, _ => 0)
  }

  function Played(counts: seq<nat>, pick: Option<nat>): (r: seq<nat>)
    ensures |r| == |counts|
  {
    if pick.Some? && pick.value < |counts| then counts[pick.value := counts[pick.value] + 1] else counts
  }

  // ---- Whole replays ----

  /** The play counts after a sequence of live requests. */
  ghost function CountsAfter(m: Matcher, recorded: seq<Body>, lives: seq<Body>): (counts: seq<nat>)
    ensures |counts| == |recorded|
  {
    if lives == [] then Unplayed(|recorded|)
    else
      var n := |lives| - 1;
      var before := CountsAfter(m, recorded, lives[..n]);
      Played(before, Pick(m, recorded, before, lives[n]))
  }

  /** The entry that answers live request t. */
  ghost function PlayAt(m: Matcher, recorded: seq<Body>, lives: seq<Body>, t: nat): Option<nat>
    requires t < |lives|
  {
    Pick(m, recorded, CountsAfter(m, recorded, lives[..t]), lives[t])
  }

  /** Whatever the scores, an entry is played at most once, and its count says whether it was. */
  lemma {:induction false} PlayedOnce(m: Matcher, recorded: seq<Body>, lives: seq<Body>, i: nat)
    requires i < |recorded|
    ensures CountsAfter(m, recorded, lives)[i] <= 1
    ensures CountsAfter(m, recorded, lives)[i] == 1 <==>
      exists t :: 0 <= t < |lives| && PlayAt(m, recorded, lives, t) == Some(i)
    ensures forall t, u :: 0 <= t < u < |lives| && PlayAt(m, recorded, lives, t) == Some(i) ==>
      PlayAt(m, recorded, lives, u) != Some(i)
  {
    if lives != [] {
      var n := |lives| - 1;
      var before := lives[..n];
      PlayedOnce(m, recorded, before, i);
      forall t | 0 <= t < n
        ensures PlayAt(m, recorded, lives, t) == PlayAt(m, recorded, before, t)
      {
        assert before[..t] == lives[..t];
      }
      PickIs(m, recorded, CountsAfter(m, recorded, before), lives[n], i);
      assert PlayAt(m, recorded, lives, n) == Pick(m, recorded, CountsAfter(m, recorded, before), lives[n]);
      if t: nat :| t < n && PlayAt(m, recorded, before, t) == Some(i) {
        assert PlayAt(m, recorded, lives, t) == Some(i);
      }
    }
  }

  // ---- When scores tell requests apart ----

  /** A score of 1 exactly for requests with the same turn. */
  ghost predicate Exact(m: Matcher) {
    forall recorded, live {:trigger m.Score(recorded, live)} :: m.Score(recorded, live) == 1.0 <==> TurnOf(recorded) == TurnOf(live)
  }

  /** Best-match playback with the similarity of the agent is exact. */
  lemma SimilarityIsExact(ratio: (Subject, Subject) -> Ratio, threshold: real)
    requires Sharp(ratio)
    ensures Exact(Matcher((recorded, live) => Some(Similarity(recorded, live, ratio)), threshold))
  {
    forall recorded, live
      ensures Similarity(recorded, live, ratio) == 1.0 <==> TurnOf(recorded) == TurnOf(live)
    {
      SimilarityTellsTurns(recorded, live, ratio);
    }
  }

  /** With a positive threshold a chat is never answered from one of another length, an earlier turn, say. */
  lemma TurnsDoNotMix(ratio: (Subject, Subject) -> Ratio, threshold: real, recorded: seq<Body>, lives: seq<Body>, t: nat)
    requires threshold > 0.0 && t < |lives|
    ensures
      var m := Matcher((recorded, live) => Some(Similarity(recorded, live, ratio)), threshold);
      var pick := PlayAt(m, recorded, lives, t);
      pick.Some? ==>
        && pick.value < |recorded|
        && (recorded[pick.value].Chat? && lives[t].Chat? ==>
              |recorded[pick.value].messages| == |lives[t].messages|)
  {
    var m := Matcher((recorded, live) => Some(Similarity(recorded, live, ratio)), threshold);
    var pick := PlayAt(m, recorded, lives, t);
    if pick.Some? {
      PickIs(m, recorded, CountsAfter(m, recorded, lives[..t]), lives[t], pick.value);
    }
  }

  function Turns(requests: seq<Body>): (turns: seq<Turn>)
    ensures |turns| == |requests| && forall i :: 0 <= i < |turns| ==> turns[i] == TurnOf(requests[i])
  {
    seq(|requests|, i requires 0 <= i < |requests| => TurnOf(requests[i]))
  }

  function Count(turns: seq<Turn>, turn: Turn): nat {
    if turns == [] then 0
    else Count(turns[..|turns| - 1], turn) + if turns[|turns| - 1] == turn then 1 else 0
  }

  /** How many entries of the same turn come before entry i. */
  function Rank(turns: seq<Turn>, i: nat): nat
    requires i < |turns|
  {
    Count(turns[..i], turns[i])
  }

  lemma {:induction false} CountGrows(turns: seq<Turn>, turn: Turn, i: nat, j: nat)
    requires i <= j <= |turns|
    ensures Count(turns[..i], turn) <= Count(turns[..j], turn)
    ensures i < j && turns[i] == turn ==> Count(turns[..i], turn) < Count(turns[..j], turn)
  {
    if i < j {
      CountGrows(turns, turn, i, j - 1);
      assert turns[..j][..j - 1] == turns[..j - 1];
    }
  }

  lemma {:induction false} EntryOfRank(turns: seq<Turn>, turn: Turn, rank: nat) returns (i: nat)
    requires rank < Count(turns, turn)
    ensures i < |turns| && turns[i] == turn && Rank(turns, i) == rank
  {
    var n := |turns| - 1;
    if rank < Count(turns[..n], turn) {
      i := EntryOfRank(turns[..n], turn, rank);
      assert turns[..n][..i] == turns[..i];
    } else {
      i := n;
    }
  }

  lemma {:induction false} CountIsMultiplicity(turns: seq<Turn>, turn: Turn)
    ensures Count(turns, turn) == multiset(turns)[turn]
  {
    if turns != [] {
      var n := |turns| - 1;
      CountIsMultiplicity(turns[..n], turn);
      assert turns == turns[..n] + [turns[n]];
    }
  }

  /** Of every turn, the first entries have been played, as many as there were live requests of it. */
  ghost predicate InStep(turns: seq<Turn>, counts: seq<nat>, seen: seq<Turn>)
    requires |counts| == |turns|
  {
    forall i :: 0 <= i < |turns| ==> (counts[i] > 0 <==> Rank(turns, i) < Count(seen, turns[i]))
  }

  lemma RankPick(m: Matcher, recorded: seq<Body>, counts: seq<nat>, seen: seq<Turn>, live: Body,
                         i: nat)
    requires Exact(m) && m.threshold <= 1.0 && |counts| == |recorded|
    requires InStep(Turns(recorded), counts, seen)
    requires i < |recorded| && TurnOf(recorded[i]) == TurnOf(live)
    requires Rank(Turns(recorded), i) == Count(seen, TurnOf(live))
    ensures Pick(m, recorded, counts, live) == Some(i)
  {
    var turns := Turns(recorded);
    forall j: nat | Eligible(m, recorded, counts, live, j)
      ensures NoBetter(m, recorded, live, i, j)
    {
      assert m.Score(recorded[i], live) == 1.0;
      if j < i && turns[j] == turns[i] {
        CountGrows(turns, turns[i], j, i);
      }
    }
    PickIs(m, recorded, counts, live, i);
  }

  lemma StepInStep(turns: seq<Turn>, counts: seq<nat>, seen: seq<Turn>, turn: Turn, i: nat)
    requires |counts| == |turns| && InStep(turns, counts, seen)
    requires i < |turns| && turns[i] == turn && Rank(turns, i) == Count(seen, turn)
    ensures InStep(turns, Played(counts, Some(i)), seen + [turn])
  {
    var seen' := seen + [turn];
    assert seen'[..|seen|] == seen;
    forall j | 0 <= j < |turns|
      ensures Played(counts, Some(i))[j] > 0 <==> Rank(turns, j) < Count(seen', turns[j])
    {
      if turns[j] == turn && j < i {
        CountGrows(turns, turn, j, i);
      } else if turns[j] == turn && i < j {
        CountGrows(turns, turn, i, j);
      }
    }
  }

  /** No more live requests of any turn than were recorded. */
  ghost predicate Covered(lives: seq<Turn>, recorded: seq<Turn>) {
    forall turn :: Count(lives, turn) <= Count(recorded, turn)
  }

  lemma {:induction false} ReplayKeepsStep(m: Matcher, recorded: seq<Body>, lives: seq<Body>)
    requires Exact(m) && m.threshold <= 1.0
    requires Covered(Turns(lives), Turns(recorded))
    ensures InStep(Turns(recorded), CountsAfter(m, recorded, lives), Turns(lives))
    ensures lives != [] ==>
      var n := |lives| - 1;
      var pick := PlayAt(m, recorded, lives, n);
      && pick.Some? && pick.value < |recorded|
      && TurnOf(recorded[pick.value]) == TurnOf(lives[n])
      && Rank(Turns(recorded), pick.value) == Rank(Turns(lives), n)
  {
    var turns, seen := Turns(recorded), Turns(lives);
    if lives != [] {
      var n := |lives| - 1;
      var most := Turns(lives[..n]);
      assert seen[..n] == most;
      assert seen == most + [TurnOf(lives[n])];
      forall turn
        ensures Count(most, turn) <= Count(turns, turn)
      {
        assert Count(seen, turn) >= Count(most, turn);
      }
      ReplayKeepsStep(m, recorded, lives[..n]);
      var counts := CountsAfter(m, recorded, lives[..n]);
      assert Count(most, TurnOf(lives[n])) < Count(turns, TurnOf(lives[n]));
      var i := EntryOfRank(turns, TurnOf(lives[n]), Count(most, TurnOf(lives[n])));
      RankPick(m, recorded, counts, most, lives[n], i);
      StepInStep(turns, counts, most, TurnOf(lives[n]), i);
    }
  }

  lemma PrefixCovered(lives: seq<Turn>, recorded: seq<Turn>, t: nat)
    requires Covered(lives, recorded) && t <= |lives|
    ensures Covered(lives[..t], recorded)
  {
    forall turn
      ensures Count(lives[..t], turn) <= Count(recorded, turn)
    {
      CountGrows(lives, turn, t, |lives|);
      assert lives[..|lives|] == lives;
    }
  }

  /** Live requests that do not outnumber the recorded ones, turn by turn, all succeed. Each is answered by the
      entry of its own turn that has the same place among the recorded ones of that turn as the request has among
      the live ones. */
  lemma RepliesInRecordedOrder(m: Matcher, recorded: seq<Body>, lives: seq<Body>, t: nat)
    requires Exact(m) && m.threshold <= 1.0 && t < |lives|
    requires Covered(Turns(lives), Turns(recorded))
    ensures
      var pick := PlayAt(m, recorded, lives, t);
      && pick.Some? && pick.value < |recorded|
      && TurnOf(recorded[pick.value]) == TurnOf(lives[t])
      && Rank(Turns(recorded), pick.value) == Rank(Turns(lives), t)
  {
    var prefix := lives[..t + 1];
    assert Turns(prefix) == Turns(lives)[..t + 1];
    PrefixCovered(Turns(lives), Turns(recorded), t + 1);
    ReplayKeepsStep(m, recorded, prefix);
    assert prefix[..t] == lives[..t];
    assert Turns(prefix)[..t] == Turns(lives)[..t];
  }

  /** With the agent's own similarity and any threshold up to 1, the default of 0.85 included, live requests that do not
      outnumber the recorded ones of their turn are all answered, in recorded order. */
  lemma AgentRepliesInRecordedOrder(ratio: (Subject, Subject) -> Ratio, threshold: real, recorded: seq<Body>,
                                    lives: seq<Body>, t: nat)
    requires Sharp(ratio) && threshold <= 1.0 && t < |lives|
    requires Covered(Turns(lives), Turns(recorded))
    ensures
      var m := Matcher((recorded, live) => Some(Similarity(recorded, live, ratio)), threshold);
      var pick := PlayAt(m, recorded, lives, t);
      && pick.Some? && pick.value < |recorded|
      && SameTurn(recorded[pick.value], lives[t])
      && Rank(Turns(recorded), pick.value) == Rank(Turns(lives), t)
  {
    var m := Matcher((recorded, live) => Some(Similarity(recorded, live, ratio)), threshold);
    SimilarityIsExact(ratio, threshold);
    RepliesInRecordedOrder(m, recorded, lives, t);
    TurnTells(recorded[PlayAt(m, recorded, lives, t).value], lives[t]);
  }

  /** Replaying a permutation of what was recorded plays every entry. */
  lemma PermutationPlaysEverything(m: Matcher, recorded: seq<Body>, lives: seq<Body>, i: nat)
    requires Exact(m) && m.threshold <= 1.0 && i < |recorded|
    requires multiset(Turns(lives)) == multiset(Turns(recorded))
    ensures exists t :: 0 <= t < |lives| && PlayAt(m, recorded, lives, t) == Some(i)
  {
    var turns := Turns(recorded);
    forall turn
      ensures Count(Turns(lives), turn) == Count(turns, turn)
    {
      CountIsMultiplicity(Turns(lives), turn);
      CountIsMultiplicity(turns, turn);
    }
    ReplayKeepsStep(m, recorded, lives);
    CountGrows(turns, turns[i], i, |turns|);
    assert turns[..|turns|] == turns;
    PlayedOnce(m, recorded, lives, i);
  }

  /** With a threshold of 1, a replay succeeds throughout exactly when no turn is asked for more often than it was
      recorded. */
  lemma ExactReplayCompletes(m: Matcher, recorded: seq<Body>, lives: seq<Body>)
    requires Exact(m) && m.threshold == 1.0
    ensures (forall t :: 0 <= t < |lives| ==> PlayAt(m, recorded, lives, t).Some?) <==>
      Covered(Turns(lives), Turns(recorded))
  {
    if Covered(Turns(lives), Turns(recorded)) {
      forall t | 0 <= t < |lives|
        ensures PlayAt(m, recorded, lives, t).Some?
      {
        RepliesInRecordedOrder(m, recorded, lives, t);
      }
    } else if forall t :: 0 <= t < |lives| ==> PlayAt(m, recorded, lives, t).Some? {
      SuccessCovers(m, recorded, lives);
    }
  }

  lemma {:induction false} SuccessCovers(m: Matcher, recorded: seq<Body>, lives: seq<Body>)
    requires Exact(m) && m.threshold == 1.0
    requires forall t :: 0 <= t < |lives| ==> PlayAt(m, recorded, lives, t).Some?
    ensures Covered(Turns(lives), Turns(recorded))
  {
    if lives != [] {
      hide PlayAt, Pick, CountsAfter, InStep, Exact, Count, Covered, Turns, TurnOf;
      var n := |lives| - 1;
      var most := lives[..n];
      forall t | 0 <= t < n
        ensures PlayAt(m, recorded, most, t).Some?
      {
        PlayAtPrefix(m, recorded, lives, n, t);
      }
      SuccessCovers(m, recorded, most);
      ReplayKeepsStep(m, recorded, most);
      LastPlay(m, recorded, lives);
      SuccessLeavesRoom(m, recorded, CountsAfter(m, recorded, most), Turns(most), lives[n]);
      CoveredSnoc(Turns(most), TurnOf(lives[n]), Turns(recorded));
      TurnsSnoc(lives);
    } else {
      NothingCovered(Turns(lives), Turns(recorded));
    }
  }

  lemma PlayAtPrefix(m: Matcher, recorded: seq<Body>, lives: seq<Body>, n: nat, t: nat)
    requires t < n <= |lives|
    ensures PlayAt(m, recorded, lives[..n], t) == PlayAt(m, recorded, lives, t)
  {
    assert lives[..n][..t] == lives[..t];
  }

  lemma LastPlay(m: Matcher, recorded: seq<Body>, lives: seq<Body>)
    requires lives != []
    ensures
      var n := |lives| - 1;
      PlayAt(m, recorded, lives, n) == Pick(m, recorded, CountsAfter(m, recorded, lives[..n]), lives[n])
  {
  }

  lemma TurnsSnoc(lives: seq<Body>)
    requires lives != []
    ensures
      var n := |lives| - 1;
      Turns(lives) == Turns(lives[..n]) + [TurnOf(lives[n])]
  {
  }

  lemma NothingCovered(lives: seq<Turn>, recorded: seq<Turn>)
    requires lives == []
    ensures Covered(lives, recorded)
  {
  }

  lemma CoveredSnoc(lives: seq<Turn>, turn: Turn, recorded: seq<Turn>)
    requires Covered(lives, recorded) && Count(lives, turn) < Count(recorded, turn)
    ensures Covered(lives + [turn], recorded)
  {
    assert (lives + [turn])[..|lives|] == lives;
  }

  /** With a threshold of 1 a pick is of the live request's own turn, of which there was one more recorded than
      seen. */
  lemma SuccessLeavesRoom(m: Matcher, recorded: seq<Body>, counts: seq<nat>, seen: seq<Turn>, live: Body)
    requires Exact(m) && m.threshold == 1.0 && |counts| == |recorded|
    requires InStep(Turns(recorded), counts, seen) && Pick(m, recorded, counts, live).Some?
    ensures Count(seen, TurnOf(live)) < Count(Turns(recorded), TurnOf(live))
  {
    var turns := Turns(recorded);
    var i := Pick(m, recorded, counts, live).value;
    PickIs(m, recorded, counts, live, i);
    assert turns[i] == TurnOf(live);
    CountGrows(turns, turns[i], i, |turns|);
    assert turns[..|turns|] == turns;
  }
}
