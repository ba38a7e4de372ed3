/**
 * How `get` settles the promise for one chunk request: the transport error,
 * if any, is passed on; otherwise the HTTP status decides.
 */
module Status {
  import opened Decimal

  /** What the HTTP client reports for one request: a transport error, or a response with a body of type `B`. */
  datatype Reply<B> = TransportFailure(error: string) | Response(statusCode: nat, body: B)

  datatype Rejection = Transport(error: string) | Message(text: string)

  datatype Outcome<B> = Resolved(body: B) | Rejected(reason: Rejection)

  // Two literals joined, so that proofs can index the message's first character.
  const TooManyRequests: string := "Too many requests to GitHub. " + "Please, wait a minute and try again."

  function UnknownUser(username: string): string {
    "Unknown username \"" + username + "\"."
  }

  function UnexpectedStatus(statusCode: nat): string {
    "GitHub responded with status code " + Digits(statusCode) + "."
  }

  /** The if-chain in the request callback of `get`. */
  function Classify<B>(username: string, reply: Reply<B>): (o: Outcome<B>)
    ensures o.Resolved? <==> reply.Response? && reply.statusCode == 200
    ensures o.Resolved? ==> o.body == reply.body
    ensures reply.TransportFailure? ==> o == Rejected(Transport(reply.error))
    ensures reply.Response? ==> o.Resolved? || o.reason.Message?
  {
    match reply
    case TransportFailure(error) => Rejected(Transport(error))
    case Response(statusCode, body) =>
      if statusCode == 429 then Rejected(Message(TooManyRequests))
      else if statusCode == 404 then Rejected(Message(UnknownUser(username)))
      else if statusCode != 200 then Rejected(Message(UnexpectedStatus(statusCode)))
      else Resolved(body)
  }

  /** The message is fixed for 429 and names the user for 404. */
  lemma ClassifyKnownStatuses<B>(username: string, body: B)
    ensures Classify(username, Response(429, body)) == Rejected(Message(TooManyRequests))
    ensures Classify(username, Response(404, body)) == Rejected(Message(UnknownUser(username)))
  {
  }

  /** Any other failing status is reported with that status written in decimal. */
  lemma ClassifyOtherStatus<B>(username: string, statusCode: nat, body: B)
    requires statusCode != 200 && statusCode != 404 && statusCode != 429
    ensures Classify(username, Response(statusCode, body)) == Rejected(Message(UnexpectedStatus(statusCode)))
    ensures var m := UnexpectedStatus(statusCode);
            var ds := m[|"GitHub responded with status code "|..|m| - 1];
            AllDigits(ds) && Value(ds) == statusCode
  {
    var m := UnexpectedStatus(statusCode);
    assert m[|"GitHub responded with status code "|..|m| - 1] == Digits(statusCode);
    ValueOfDigits(statusCode);
  }

  lemma PrefixSuffixCancel(a: string, x: string, y: string, b: string)
    requires a + x + b == a + y + b
    ensures x == y
  {
    assert x == (a + x + b)[|a|..|a| + |x|];
    assert y == (a + y + b)[|a|..|a| + |y|];
  }

  /** The three kinds of status message begin with different letters. */
  lemma MessageInitials(username: string, statusCode: nat)
    ensures TooManyRequests[0] == 'T'
    ensures UnknownUser(username)[0] == 'U'
    ensures UnexpectedStatus(statusCode)[0] == 'G'
  {
    assert "Too many requests to GitHub. "[0] == 'T';
  }

  /** Distinct statuses give distinct outcomes, so the outcome identifies the status. */
  lemma ClassifyDistinguishesStatuses<B>(username: string, s1: nat, s2: nat, body1: B, body2: B)
    requires Classify(username, Response(s1, body1)) == Classify(username, Response(s2, body2))
    ensures s1 == s2
  {
    if s1 != 200 && s2 != 200 {
      MessageInitials(username, s1);
      MessageInitials(username, s2);
      var m1 := Classify(username, Response(s1, body1)).reason.text;
      var m2 := Classify(username, Response(s2, body2)).reason.text;
      assert m1 == m2;
      assert m1[0] == (if s1 == 429 then 'T' else if s1 == 404 then 'U' else 'G');
      assert m2[0] == (if s2 == 429 then 'T' else if s2 == 404 then 'U' else 'G');
      if s1 != 404 && s1 != 429 && s2 != 404 && s2 != 429 {
        PrefixSuffixCancel("GitHub responded with status code ", Digits(s1), Digits(s2), ".");
        DigitsInjective(s1, s2);
      }
    }
  }

  /** The 404 message identifies the username. */
  lemma UnknownUserInjective(u1: string, u2: string)
    requires UnknownUser(u1) == UnknownUser(u2)
    ensures u1 == u2
  {
    PrefixSuffixCancel("Unknown username \"", u1, u2, "\".");
  }
}
