/** TCP connections in the router's table: what their polls answer. */
module TcpRouting {
  import opened TcpSpec
  import opened TcpProgress
  import opened Routers

  /** What the router sees of the poll of a TCP connection. */
  function PollAnswer(c: Conn, env: PollEnv): PollResult
    requires c.Ok()
  {
    var (d, progress) := c.Poll(env);
    if progress then Progress(d.closed) else Blocked(d.closed)
  }

  ghost predicate AllOk<Id(!new)>(conns: map<Id, Conn>) {
    forall id :: id in conns ==> conns[id].Ok()
  }

  function Answers<Id>(conns: map<Id, Conn>, envs: map<Id, PollEnv>): map<Id, PollResult>
    requires conns.Keys == envs.Keys && forall id :: id in conns ==> conns[id].Ok()
  {
    map id | id in conns :: PollAnswer(conns[id], envs[id])
  }

  /** After the router has polled its TCP connections none that is left is closed, and every
      one that the polls closed is gone and quarantined. */
  lemma NoClosedConnectionIsLeft<Id(!new)>(t: Table<Id>, conns: map<Id, Conn>, envs: map<Id, PollEnv>, pace: Pace<Id>)
    requires t.connections.Keys == conns.Keys == envs.Keys && AllOk(conns)
    requires forall id :: id in conns ==> t.connections[id].closed == conns[id].closed
    ensures
      var after := t.PollConnections(Answers(conns, envs), pace);
      forall id :: id in conns ==>
        if conns[id].Poll(envs[id]).0.closed then id !in after.connections && id in after.recentlyClosed
        else id in after.connections && !after.connections[id].closed
  {
    hide Conn.Poll;
    hide Conn.Ok;
    var results := Answers(conns, envs);
    forall id | id in conns
      ensures
        var after := t.PollConnections(results, pace);
        if conns[id].Poll(envs[id]).0.closed then id !in after.connections && id in after.recentlyClosed
        else id in after.connections && !after.connections[id].closed
    {
      ClosedAnswers(conns[id], envs[id]);
      RemovalsAreRecorded(t, results, pace, id);
    }
  }

  /** A closed connection stays closed, and only a poll that leaves it open may block. */
  lemma ClosedAnswers(c: Conn, env: PollEnv)
    requires c.Ok()
    ensures c.Poll(env).0.closed ==> c.Poll(env).1
    ensures c.closed ==> c.Poll(env).0.closed
  {
    hide Conn.Ok;
    hide Conn.FlushPending;
    hide Conn.ProcessSend;
    hide Conn.ReceiveFrom;
    hide Conn.TryConnect;
    if c.Poll(env).0.closed {
      ClosingPollReportsProgress(c, env);
    }
  }
}
