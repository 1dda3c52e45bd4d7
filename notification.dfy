/**
 * Real-time notifications: whether a new article matches a subscription's
 * topics, keywords or sources, and the queue of email and push entries
 * built for the matching subscriptions.
 */
module Notification {
  import opened Strings

  /** The article fields the matcher reads; a missing field is "" or []. */
  datatype Article = Article(title: string, content: string, summary: string, topics: seq<string>, source: string)

  /** A subscription; missing criteria lists are []. */
  datatype Subscription = Subscription(
    id: string, userId: string, mode: string,
    topics: seq<string>, keywords: seq<string>, sources: seq<string>,
    emailEnabled: bool, pushEnabled: bool)

  // ---------------------------------------------------------------- matching

  /** `needle` occurs in `hay`, ignoring case. */
  predicate Mentions(hay: string, needle: string) {
    Contains(Lower(hay), Lower(needle))
  }

  /** Some haystack mentions `needle`. */
  function SomeMentions(haystacks: seq<string>, needle: string): bool {
    if haystacks == [] then false
    else Mentions(haystacks[0], needle) || SomeMentions(haystacks[1..], needle)
  }

  /** Some needle is mentioned by some haystack. */
  function AnyNeedle(haystacks: seq<string>, needles: seq<string>): bool {
    if needles == [] then false
    else SomeMentions(haystacks, needles[0]) || AnyNeedle(haystacks, needles[1..])
  }

  /** The `some` chains hold exactly when some haystack mentions some needle. */
  lemma {:induction false} AnyNeedleExists(haystacks: seq<string>, needles: seq<string>)
    ensures AnyNeedle(haystacks, needles) <==>
            exists i, j :: 0 <= i < |haystacks| && 0 <= j < |needles| && Mentions(haystacks[i], needles[j])
  {
    if needles != [] {
      AnyNeedleExists(haystacks, needles[1..]);
      SomeMentionsExists(haystacks, needles[0]);
      if AnyNeedle(haystacks, needles[1..]) {
        var i, j :| 0 <= i < |haystacks| && 0 <= j < |needles[1..]| && Mentions(haystacks[i], needles[1..][j]);
        assert Mentions(haystacks[i], needles[j + 1]);
      }
      if exists i, j :: 0 <= i < |haystacks| && 0 <= j < |needles| && Mentions(haystacks[i], needles[j]) {
        var i, j :| 0 <= i < |haystacks| && 0 <= j < |needles| && Mentions(haystacks[i], needles[j]);
        if j > 0 {
          assert Mentions(haystacks[i], needles[1..][j - 1]);
        }
      }
    }
  }

  lemma {:induction false} SomeMentionsExists(haystacks: seq<string>, needle: string)
    ensures SomeMentions(haystacks, needle) <==> exists i :: 0 <= i < |haystacks| && Mentions(haystacks[i], needle)
  {
    if haystacks != [] {
      SomeMentionsExists(haystacks[1..], needle);
      if exists i :: 0 <= i < |haystacks| && Mentions(haystacks[i], needle) {
        var i :| 0 <= i < |haystacks| && Mentions(haystacks[i], needle);
        if i > 0 {
          assert Mentions(haystacks[1..][i - 1], needle);
        }
      }
    }
  }

  /** The text keywords are searched in: title, content and summary joined by spaces. */
  function SearchText(a: Article): string {
    Join([a.title, a.content, a.summary], " ")
  }

  predicate TopicMatch(a: Article, s: Subscription) {
    AnyNeedle(a.topics, s.topics)
  }

  predicate KeywordMatch(a: Article, s: Subscription) {
    AnyNeedle([SearchText(a)], s.keywords)
  }

  /** An article without a source matches no source. */
  predicate SourceMatch(a: Article, s: Subscription) {
    a.source != "" && AnyNeedle([a.source], s.sources)
  }

  /** `doesArticleMatchSubscription(article, subscription)`. */
  predicate DoesArticleMatchSubscription(a: Article, s: Subscription)
    ensures s.topics == [] && s.keywords == [] && s.sources == [] ==> !DoesArticleMatchSubscription(a, s)
  {
    TopicMatch(a, s) || KeywordMatch(a, s) || SourceMatch(a, s)
  }

  /**
   * An article matches exactly when one of its topics contains one of the
   * subscription's topics, the search text contains one of its keywords, or
   * its (non-empty) source contains one of its sources, all ignoring case.
   */
  lemma MatchIff(a: Article, s: Subscription)
    ensures DoesArticleMatchSubscription(a, s) <==>
      || (exists i, j :: 0 <= i < |a.topics| && 0 <= j < |s.topics| && Mentions(a.topics[i], s.topics[j]))
      || (exists j :: 0 <= j < |s.keywords| && Mentions(SearchText(a), s.keywords[j]))
      || (a.source != "" && exists j :: 0 <= j < |s.sources| && Mentions(a.source, s.sources[j]))
  {
    AnyNeedleExists(a.topics, s.topics);
    AnyNeedleExists([SearchText(a)], s.keywords);
    AnyNeedleExists([a.source], s.sources);
  }

  lemma LowerAppend(x: string, y: string)
    ensures Lower(x + y) == Lower(x) + Lower(y)
  {
  }

  lemma ContainsShift(x: string, y: string, z: string, p: string)
    requires Contains(y, p)
    ensures Contains(x + y + z, p)
  {
    var i :| 0 <= i <= |y| - |p| && OccursAt(y, p, i);
    assert (x + y + z)[|x| + i..|x| + i + |p|] == y[i..i + |p|];
    assert OccursAt(x + y + z, p, |x| + i);
  }

  lemma LowerContainsShift(x: string, y: string, z: string, p: string)
    requires Contains(Lower(y), p)
    ensures Contains(Lower(x + y + z), p)
  {
    LowerAppend(x + y, z);
    LowerAppend(x, y);
    ContainsShift(Lower(x), Lower(y), Lower(z), p);
  }

  lemma SearchTextFields(a: Article)
    ensures SearchText(a) == a.title + " " + a.content + " " + a.summary
  {
    assert [a.title, a.content, a.summary][1..] == [a.content, a.summary];
    assert [a.content, a.summary][1..] == [a.summary];
    assert Join([a.summary], " ") == a.summary;
    assert Join([a.content, a.summary], " ") == a.content + " " + a.summary;
  }

  /** A keyword found in the title, the content or the summary makes a match. */
  lemma KeywordInAnyField(a: Article, s: Subscription, j: nat)
    requires j < |s.keywords|
    requires Mentions(a.title, s.keywords[j]) || Mentions(a.content, s.keywords[j]) || Mentions(a.summary, s.keywords[j])
    ensures DoesArticleMatchSubscription(a, s)
  {
    var kw := Lower(s.keywords[j]);
    var text := SearchText(a);
    SearchTextFields(a);
    if Mentions(a.title, s.keywords[j]) {
      LowerContainsShift("", a.title, " " + a.content + " " + a.summary, kw);
      assert "" + a.title + (" " + a.content + " " + a.summary) == text;
    } else if Mentions(a.content, s.keywords[j]) {
      LowerContainsShift(a.title + " ", a.content, " " + a.summary, kw);
      assert a.title + " " + a.content + (" " + a.summary) == text;
    } else {
      LowerContainsShift(a.title + " " + a.content + " ", a.summary, "", kw);
      assert a.title + " " + a.content + " " + a.summary + "" == text;
    }
    assert Mentions(text, s.keywords[j]);
    MatchIff(a, s);
  }

  /** The criteria with every entry lower-cased. */
  function LowerAll(xs: seq<string>): (r: seq<string>)
    ensures |r| == |xs| && forall j :: 0 <= j < |xs| ==> r[j] == Lower(xs[j])
  {
    seq(|xs|, j requires 0 <= j < |xs| => Lower(xs[j]))
  }

  /** Matching ignores the case of the subscription's criteria. */
  lemma MatchIgnoresCase(a: Article, s: Subscription)
    ensures DoesArticleMatchSubscription(a, s.(topics := LowerAll(s.topics), keywords := LowerAll(s.keywords), sources := LowerAll(s.sources)))
        == DoesArticleMatchSubscription(a, s)
  {
    var t := s.(topics := LowerAll(s.topics), keywords := LowerAll(s.keywords), sources := LowerAll(s.sources));
    forall x, y ensures Mentions(x, Lower(y)) == Mentions(x, y) {
      LowerIdempotent(y);
    }
    MatchIff(a, s);
    MatchIff(a, t);
  }

  // ------------------------------------------------------------------ queue

  datatype Channel = Email | Push

  /** One queued notification. */
  datatype Notice = Notice(subscriptionId: string, userId: string, channel: Channel)

  /** The subscriptions the query returns: real-time ones with some channel enabled. */
  predicate Selected(s: Subscription) {
    s.mode == "realtime" && (s.emailEnabled || s.pushEnabled)
  }

  /** The entries one subscription contributes: email first, then push. */
  function NoticesFor(a: Article, s: Subscription): seq<Notice> {
    if Selected(s) && DoesArticleMatchSubscription(a, s) then
      (if s.emailEnabled then [Notice(s.id, s.userId, Email)] else [])
      + (if s.pushEnabled then [Notice(s.id, s.userId, Push)] else [])
    else []
  }

  /** The queue for the subscriptions in order; the loop of `BuildQueue` computes it. */
  function Queue(a: Article, subs: seq<Subscription>): seq<Notice> {
    if subs == [] then [] else Queue(a, subs[..|subs| - 1]) + NoticesFor(a, subs[|subs| - 1])
  }

  /** The loop of `processArticleNotifications` that builds the queue. */
  method BuildQueue(a: Article, subs: seq<Subscription>) returns (notices: seq<Notice>)
    ensures notices == Queue(a, subs)
  {
    notices := [];
    for k := 0 to |subs|
      invariant notices == Queue(a, subs[..k])
    {
      var s := subs[k];
      assert subs[..k + 1][..k] == subs[..k];
      if Selected(s) && DoesArticleMatchSubscription(a, s) {
        if s.emailEnabled {
          notices := notices + [Notice(s.id, s.userId, Email)];
        }
        if s.pushEnabled {
          notices := notices + [Notice(s.id, s.userId, Push)];
        }
      }
    }
    assert subs[..|subs|] == subs;
  }

  /** `n` is an entry `s` may contribute: `s` is selected and matches, and `n`'s channel is on. */
  predicate Warrants(a: Article, s: Subscription, n: Notice) {
    && s.id == n.subscriptionId && s.userId == n.userId
    && Selected(s) && DoesArticleMatchSubscription(a, s)
    && (if n.channel == Email then s.emailEnabled else s.pushEnabled)
  }

  /** Every queued entry comes from a selected, matching subscription with that channel on. */
  lemma {:induction false} QueueSound(a: Article, subs: seq<Subscription>, n: Notice)
    requires n in Queue(a, subs)
    ensures exists k :: 0 <= k < |subs| && Warrants(a, subs[k], n)
  {
    var last := |subs| - 1;
    if n in Queue(a, subs[..last]) {
      QueueSound(a, subs[..last], n);
      var k :| 0 <= k < |subs[..last]| && Warrants(a, subs[..last][k], n);
      assert subs[..last][k] == subs[k];
    } else {
      assert n in NoticesFor(a, subs[last]);
    }
  }

  /** A selected, matching subscription gets an email entry when email is on, and a push entry when push is on. */
  lemma {:induction false} QueueComplete(a: Article, subs: seq<Subscription>, k: nat)
    requires k < |subs| && Selected(subs[k]) && DoesArticleMatchSubscription(a, subs[k])
    ensures subs[k].emailEnabled ==> Notice(subs[k].id, subs[k].userId, Email) in Queue(a, subs)
    ensures subs[k].pushEnabled ==> Notice(subs[k].id, subs[k].userId, Push) in Queue(a, subs)
  {
    var last := |subs| - 1;
    if k < last {
      QueueComplete(a, subs[..last], k);
      assert subs[..last][k] == subs[k];
    }
  }

  /** At most two entries per subscription. */
  lemma {:induction false} QueueBound(a: Article, subs: seq<Subscription>)
    ensures |Queue(a, subs)| <= 2 * |subs|
  {
    if subs != [] {
      QueueBound(a, subs[..|subs| - 1]);
    }
  }
}
