/** Session keys and their wire format `user:{user_id}:agent:{agent_id}:{name}`. */
module SessionKeys {
  import opened Prelude
  import opened Text

  datatype SessionKey = SessionKey(userId: string, agentId: string, name: string)

  datatype KeyError = MissingUser | MissingAgent | MissingName | EmptyComponent

  const PREFIX: string := "user:"
  const MARKER: string := ":agent:"

  function Format(k: SessionKey): string {
    PREFIX + (k.userId + (MARKER + (k.agentId + (":" + k.name))))
  }

  function Parse(s: string): Result<SessionKey, KeyError> {
    if !(PREFIX <= s) then Err(MissingUser) else ParseUser(s[|PREFIX|..])
  }

  function ParseUser(rest: string): Result<SessionKey, KeyError> {
    match Find(rest, MARKER)
    case None => Err(MissingAgent)
    case Some(agentPos) => ParseAgent(rest[..agentPos], rest[agentPos + |MARKER|..])
  }

  function ParseAgent(userId: string, afterAgent: string): Result<SessionKey, KeyError> {
    match Find(afterAgent, ":")
    case None => Err(MissingName)
    case Some(colonPos) =>
      var k := SessionKey(userId, afterAgent[..colonPos], afterAgent[colonPos + 1..]);
      if k.userId == "" || k.agentId == "" || k.name == "" then Err(EmptyComponent) else Ok(k)
  }

  lemma FormatIs(k: SessionKey)
    ensures Format(k) == "user:" + k.userId + ":agent:" + k.agentId + ":" + k.name
  {
    Associative(":agent:" + k.agentId, ":", k.name);
    Associative(":agent:", k.agentId, ":" + k.name);
    Associative("user:", k.userId, ":agent:" + (k.agentId + (":" + k.name)));
    Associative("user:" + k.userId, ":agent:", k.agentId + (":" + k.name));
    Associative("user:" + k.userId + ":agent:", k.agentId, ":" + k.name);
    Associative("user:" + k.userId + ":agent:" + k.agentId, ":", k.name);
  }

  /** A split at an occurrence of `mark` puts back together. */
  lemma SplitJoins(s: string, mark: string, p: nat)
    requires OccursAt(s, mark, p)
    ensures s == s[..p] + (mark + s[p + |mark|..])
  {
    assert s == s[..p] + (s[p..p + |mark|] + s[p + |mark|..]);
  }

  /** Formatting a parsed key gives the text back: a text has at most one reading. */
  lemma FormatParsed(s: string)
    requires Parse(s).Ok?
    ensures Format(Parse(s).value) == s
  {
    var rest := s[|PREFIX|..];
    assert s == PREFIX + rest;
    var agentPos := Find(rest, MARKER).value;
    SplitJoins(rest, MARKER, agentPos);
    var afterAgent := rest[agentPos + |MARKER|..];
    var colonPos := Find(afterAgent, ":").value;
    SplitJoins(afterAgent, ":", colonPos);
    assert Parse(s).value == SessionKey(rest[..agentPos], afterAgent[..colonPos], afterAgent[colonPos + 1..]);
    hide Parse, ParseUser, ParseAgent, Find, OccursAt;
  }

  /** The key reads back: no part is empty, the agent has no colon, and the first `:agent:` in
      the user id followed by the marker is that marker itself. */
  ghost predicate Readable(k: SessionKey) {
    k.userId != "" && k.agentId != "" && k.name != "" && ':' !in k.agentId &&
    Find(k.userId + MARKER, MARKER) == Some(|k.userId|)
  }

  /** Where a mark occurs in a text does not depend on what comes after the occurrence. */
  lemma OccursInPrefix(a: string, b: string, mark: string, p: nat)
    requires p + |mark| <= |a|
    ensures OccursAt(a + b, mark, p) <==> OccursAt(a, mark, p)
  {
    assert (a + b)[p..p + |mark|] == a[p..p + |mark|];
  }

  lemma MarkerFirst(user: string, tail: string)
    ensures Find(user + (MARKER + tail), MARKER) == Some(|user|) <==> Find(user + MARKER, MARKER) == Some(|user|)
  {
    var whole := user + (MARKER + tail);
    assert whole == user + MARKER + tail;
    forall p | 0 <= p <= |user| ensures OccursAt(whole, MARKER, p) <==> OccursAt(user + MARKER, MARKER, p) {
      OccursInPrefix(user + MARKER, tail, MARKER, p);
    }
    FindIs(whole, MARKER, |user|);
    FindIs(user + MARKER, MARKER, |user|);
  }

  lemma ColonFirst(agent: string, name: string)
    ensures Find(agent + (":" + name), ":") == Some(|agent|) <==> ':' !in agent
  {
    var whole := agent + (":" + name);
    forall p | 0 <= p < |agent| ensures OccursAt(whole, ":", p) <==> agent[p] == ':' {
      assert whole[p..p + 1] == [agent[p]] && ":"[0] == ':';
    }
    assert whole[|agent|..|agent| + 1] == ":";
    FindIs(whole, ":", |agent|);
    if ':' in agent {
      var p :| 0 <= p < |agent| && agent[p] == ':';
      assert OccursAt(whole, ":", p);
    }
  }

  lemma PartsOf(before: string, mark: string, after: string)
    ensures var s := before + (mark + after); s[..|before|] == before && s[|before| + |mark|..] == after
  {}

  lemma PrefixParsed(rest: string)
    ensures Parse(PREFIX + rest) == ParseUser(rest)
  {
    hide ParseUser;
    PartsOf("", PREFIX, rest);
    assert "" + (PREFIX + rest) == PREFIX + rest;
  }

  lemma AgentParsed(k: SessionKey)
    ensures ParseAgent(k.userId, k.agentId + (":" + k.name)) == Ok(k) <==>
            k.userId != "" && k.agentId != "" && k.name != "" && ':' !in k.agentId
  {
    hide Find;
    ColonFirst(k.agentId, k.name);
    PartsOf(k.agentId, ":", k.name);
  }

  lemma UserParsed(k: SessionKey)
    ensures ParseUser(k.userId + (MARKER + (k.agentId + (":" + k.name)))) == Ok(k) <==> Readable(k)
  {
    hide Find;
    var afterAgent := k.agentId + (":" + k.name);
    MarkerFirst(k.userId, afterAgent);
    PartsOf(k.userId, MARKER, afterAgent);
    AgentParsed(k);
    hide Format;
  }

  /** Parsing a formatted key gives the key back exactly when it is readable. */
  lemma ParseFormatted(k: SessionKey)
    ensures Parse(Format(k)) == Ok(k) <==> Readable(k)
  {
    hide ParseUser;
    UserParsed(k);
    PrefixParsed(k.userId + (MARKER + (k.agentId + (":" + k.name))));
  }

  /** Two keys that read back are formatted alike only if they are the same key. */
  lemma FormatInjective(j: SessionKey, k: SessionKey)
    requires Readable(j) && Readable(k) && Format(j) == Format(k)
    ensures j == k
  {
    ParseFormatted(j);
    ParseFormatted(k);
  }

  /** A user id that ends in `:agent` never reads back: the marker is found too early, overlapping it. */
  lemma OverlapBreaksRoundTrip(user: string, agent: string, name: string)
    ensures !Readable(SessionKey(user + ":agent", agent, name))
  {
    var whole := user + ":agent" + MARKER;
    assert whole[|user|..|user| + |MARKER|] == MARKER;
    assert OccursAt(whole, MARKER, |user|);
    FindIs(whole, MARKER, |user + ":agent"|);
  }
}
