/** Runs in which nothing goes wrong, and nothing happens that the driver itself would not do. */
module H5Runs {
  import opened Bytes
  import opened H5Frame
  import opened H5State
  import opened H5Receive
  import opened H5Link

  /** A step that queues nothing and loses nothing; memory is available when a frame is asked for, and
      the timer fires only if it is armed. */
  predicate Faultless(s: System, m: Move) {
    match m.act
    case Queue(_) => false
    case Send(ok1, ok2, ok3) => ok1 && ok2 && ok3
    case Arrive => true
    case Lose(_) => false
    case Expire => if m.AtX? then s.x.h.arq.timer else s.y.h.arq.timer
  }

  ghost predicate AllFaultless(s: System, moves: seq<Move>)
    requires Ok(s.x.h) && Ok(s.y.h)
    decreases |moves|
  {
    moves == [] || (Faultless(s, moves[0]) && AllFaultless(Do(s, moves[0]), moves[1..]))
  }

  ghost predicate Leads(s: System, moves: seq<Move>, s': System) {
    && Ok(s.x.h) && Ok(s.y.h) && AllFaultless(s, moves) && Run(s, moves) == s'
  }

  lemma {:induction false} RunAppend(s: System, m: seq<Move>, n: seq<Move>)
    requires Ok(s.x.h) && Ok(s.y.h)
    ensures Run(s, m + n) == Run(Run(s, m), n)
    ensures AllFaultless(s, m) && AllFaultless(Run(s, m), n) ==> AllFaultless(s, m + n)
    decreases |m|
  {
    if m == [] {
      assert m + n == n;
    } else {
      assert (m + n)[1..] == m[1..] + n;
      RunAppend(Do(s, m[0]), m[1..], n);
    }
  }

  lemma Chain(s: System, m: seq<Move>, s': System, n: seq<Move>, s'': System)
    requires Leads(s, m, s') && Ok(s'.x.h) && Ok(s'.y.h) && Leads(s', n, s'')
    ensures Leads(s, m + n, s'')
  {
    RunAppend(s, m, n);
  }

  lemma OneMove(s: System, m: Move, s': System)
    requires Ok(s.x.h) && Ok(s.y.h) && Faultless(s, m) && s' == Do(s, m)
    ensures Leads(s, [m], s')
  {
    assert [m][1..] == [];
    assert Run(s', []) == s' && AllFaultless(s', []);
  }

  // ---- The other side ----

  function Mirror(m: Move): Move {
    match m
    case AtX(act) => AtY(act)
    case AtY(act) => AtX(act)
  }

  function MirrorAll(moves: seq<Move>): (r: seq<Move>)
    ensures |r| == |moves|
    ensures forall i :: 0 <= i < |moves| ==> r[i] == Mirror(moves[i])
  {
    if moves == [] then [] else [Mirror(moves[0])] + MirrorAll(moves[1..])
  }

  lemma MirrorDo(s: System, m: Move)
    requires Ok(s.x.h) && Ok(s.y.h)
    ensures Do(Flip(s), Mirror(m)) == Flip(Do(s, m)) && Faultless(Flip(s), Mirror(m)) == Faultless(s, m)
  {
  }

  lemma {:induction false} MirrorRun(s: System, moves: seq<Move>)
    requires Ok(s.x.h) && Ok(s.y.h)
    ensures Run(Flip(s), MirrorAll(moves)) == Flip(Run(s, moves))
    ensures AllFaultless(s, moves) ==> AllFaultless(Flip(s), MirrorAll(moves))
    decreases |moves|
  {
    if moves != [] {
      MirrorDo(s, moves[0]);
      assert MirrorAll(moves)[1..] == MirrorAll(moves[1..]);
      MirrorRun(Do(s, moves[0]), moves[1..]);
    }
  }

  lemma MirrorLeads(s: System, moves: seq<Move>, s': System)
    requires Leads(Flip(s), moves, Flip(s'))
    ensures Leads(s, MirrorAll(moves), s')
  {
    MirrorRun(Flip(s), moves);
    assert Flip(Flip(s)) == s && Flip(Flip(s')) == s';
  }

  lemma {:induction false} FaultlessKeepsLogs(s: System, moves: seq<Move>)
    requires Ok(s.x.h) && Ok(s.y.h) && AllFaultless(s, moves)
    ensures Run(s, moves).x.log == s.x.log && Run(s, moves).y.log == s.y.log
    decreases |moves|
  {
    if moves != [] {
      FaultlessKeepsLogs(Do(s, moves[0]), moves[1..]);
    }
  }
}
