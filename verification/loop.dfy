/** The `for` loop of `doPrivmsg`, independent of what one iteration does:
    at most one reply per URL, in order, until an iteration raises. */
module UrlLoop {
  import opened Wrappers

  /** What the loop body does for one URL: `Err` when an exception escapes
      it (which ends the loop), otherwise the reply it sends, if any. */
  type UrlStep = string -> Result<Option<string>>

  /** The loop over the URLs: one reply at most per URL, in URL order, up to
      the first URL whose step raises. */
  function RepliesFor(urls: seq<string>, step: UrlStep): (replies: seq<string>)
    ensures |replies| <= |urls|
  {
    if urls == [] then []
    else match step(urls[0])
      case Err(_) => []
      case Ok(r) => AsSeq(r) + RepliesFor(urls[1..], step)
  }

  /** The `for` loop over the URLs, left early when a step raises. */
  method RunLoop(urls: seq<string>, step: UrlStep) returns (replies: seq<string>)
    ensures replies == RepliesFor(urls, step)
  {
    replies := [];
    var i := 0;
    while i < |urls|
      invariant 0 <= i <= |urls|
      invariant RepliesFor(urls, step) == replies + RepliesFor(urls[i..], step)
    {
      var outcome := step(urls[i]);
      RepliesFrom(urls, i, step);
      if outcome.Err? {
        break;
      }
      replies := replies + AsSeq(outcome.value);
      i := i + 1;
    }
  }

  /** How the replies for the URLs from index `i` on begin. */
  lemma RepliesFrom(urls: seq<string>, i: nat, step: UrlStep)
    requires i < |urls|
    ensures step(urls[i]).Err? ==> RepliesFor(urls[i..], step) == []
    ensures step(urls[i]).Ok? ==>
      RepliesFor(urls[i..], step) == AsSeq(step(urls[i]).value) + RepliesFor(urls[i + 1..], step)
  {
    assert urls[i..][0] == urls[i] && urls[i..][1..] == urls[i + 1..];
  }

  /** Handling two lists of URLs one after the other gives the replies of
      the first followed by those of the second, as long as no domain in the
      first fails to parse. */
  lemma {:induction false} RepliesAppend(a: seq<string>, b: seq<string>, step: UrlStep)
    requires forall k :: 0 <= k < |a| ==> step(a[k]).Ok?
    ensures RepliesFor(a + b, step) == RepliesFor(a, step) + RepliesFor(b, step)
  {
    if a == [] {
      assert a + b == b;
    } else {
      assert (a + b)[0] == a[0];
      assert (a + b)[1..] == a[1..] + b;
      RepliesAppend(a[1..], b, step);
    }
  }

  /** A URL whose domain cannot be parsed ends the message: only the URLs
      before it are answered. */
  lemma {:induction false} AbortAt(urls: seq<string>, i: nat, step: UrlStep)
    requires i < |urls| && step(urls[i]).Err?
    ensures RepliesFor(urls, step) == RepliesFor(urls[..i], step)
  {
    if i == 0 {
      assert urls[..0] == [];
    } else if step(urls[0]).Ok? {
      assert urls[..i][0] == urls[0];
      assert urls[..i][1..] == urls[1..][..i - 1];
      AbortAt(urls[1..], i - 1, step);
    } else {
      assert urls[..i][0] == urls[0];
    }
  }

  /** A URL that gets no reply costs only its own reply: the URLs after it
      are still handled. */
  lemma SilentUrlSkipped(urls: seq<string>, i: nat, step: UrlStep)
    requires i < |urls| && step(urls[i]) == Ok(None)
    requires forall k :: 0 <= k < i ==> step(urls[k]).Ok?
    ensures RepliesFor(urls, step) == RepliesFor(urls[..i], step) + RepliesFor(urls[i + 1..], step)
  {
    var front, rest := urls[..i], urls[i..];
    assert front + rest == urls;
    RepliesAppend(front, rest, step);
    assert rest[1..] == urls[i + 1..];
    SilentFirst(rest, step);
  }

  /** A first URL without a reply adds nothing. */
  lemma SilentFirst(urls: seq<string>, step: UrlStep)
    requires urls != [] && step(urls[0]) == Ok(None)
    ensures RepliesFor(urls, step) == RepliesFor(urls[1..], step)
  {
  }
}
