/** Sequences of steps, whoever takes them. */
module ProtocolPaths {
  import opened Protocol

  /** t is what some steps lead to from s. */
  ghost predicate Leads(cfg: Config, s: State, actions: seq<Action>, t: State)
    decreases |actions|
  {
    if actions == [] then s == t
    else Enabled(cfg, s, actions[0]) && Leads(cfg, Next(cfg, s, actions[0]), actions[1..], t)
  }

  /** Four steps one after the other. */
  lemma LeadsByFour(cfg: Config, s0: State, s1: State, s2: State, s3: State, s4: State, a: seq<Action>)
    requires |a| == 4
    requires Enabled(cfg, s0, a[0]) && Next(cfg, s0, a[0]) == s1
    requires Enabled(cfg, s1, a[1]) && Next(cfg, s1, a[1]) == s2
    requires Enabled(cfg, s2, a[2]) && Next(cfg, s2, a[2]) == s3
    requires Enabled(cfg, s3, a[3]) && Next(cfg, s3, a[3]) == s4
    ensures Leads(cfg, s0, a, s4)
  {
    hide Enabled, Next;
    assert a[1..][1..] == a[2..] && a[2..][1..] == a[3..] && a[3..][1..] == [];
    assert Leads(cfg, s3, a[3..], s4);
    assert Leads(cfg, s2, a[2..], s4);
    assert Leads(cfg, s1, a[1..], s4);
  }

  lemma {:induction false} LeadsOn(cfg: Config, s: State, a: seq<Action>, t: State, b: seq<Action>, u: State)
    requires Leads(cfg, s, a, t) && Leads(cfg, t, b, u)
    ensures Leads(cfg, s, a + b, u)
    decreases |a|
  {
    hide Enabled, Next;
    if a == [] {
      assert a + b == b;
    } else {
      LeadsOn(cfg, Next(cfg, s, a[0]), a[1..], t, b, u);
      assert (a + b)[1..] == a[1..] + b;
    }
  }

  /** Steps are deterministic: what they lead to is on the way of any continuation. */
  lemma {:induction false} LeadsRest(cfg: Config, s: State, a: seq<Action>, t: State, b: seq<Action>, u: State)
    requires Leads(cfg, s, a, t) && Leads(cfg, s, a + b, u)
    ensures Leads(cfg, t, b, u)
    decreases |a|
  {
    hide Enabled, Next;
    if a == [] {
      assert a + b == b;
    } else {
      assert (a + b)[0] == a[0] && (a + b)[1..] == a[1..] + b;
      LeadsRest(cfg, Next(cfg, s, a[0]), a[1..], t, b, u);
    }
  }

  /** One step and what comes after it. */
  lemma LeadsStep(cfg: Config, s: State, a: Action, rest: seq<Action>, t: State)
    requires Enabled(cfg, s, a) && Leads(cfg, Next(cfg, s, a), rest, t)
    ensures Leads(cfg, s, [a] + rest, t)
  {
    hide Enabled, Next;
    assert ([a] + rest)[1..] == rest;
  }
  lemma LeadsEnd(cfg: Config, s: State, a: Action, t: State)
    requires Enabled(cfg, s, a) && Next(cfg, s, a) == t
    ensures Leads(cfg, s, [a], t)
  {
    hide Enabled, Next;
    assert [a][1..] == [];
    assert Leads(cfg, t, [], t);
  }

  lemma LeadsNowhere(cfg: Config, s: State)
    ensures Leads(cfg, s, [], s)
  {
  }
}
