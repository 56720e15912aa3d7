/**
 * The staged builder interfaces of the policy engine (IPolicyEngineBuilder.cs).
 * Each stage interface exposes one configuration method whose return type is
 * the next stage, and every stage interface extends the final builder
 * interface, so `Build()` is callable from every stage. The stages are a
 * datatype, a method call is a partial transition, and a fluent call chain is
 * a sequence of calls started from the input stage.
 */
module Builders {
  import opened Wrappers

  /** The four builder interfaces: IInputPolicyEngineBuilder,
      IProcessorPolicyEngineBuilder, IOutputPolicyEngineBuilder and the final
      IPolicyEngineBuilder. */
  datatype Stage = InputStage | ProcessorStage | OutputStage | FinalStage

  /** The members declared by the builder interfaces. */
  datatype Call = WithInputPolicies | WithProcessors | WithOutputPolicies | Build

  /** What a call in a chain returns: a builder at some stage, or the built
      engine, which exposes no builder member. */
  datatype Value = Builder(stage: Stage) | Engine

  /** How many configuration steps lie behind a stage. */
  function Rank(s: Stage): nat
  {
    match s
    case InputStage => 0
    case ProcessorStage => 1
    case OutputStage => 2
    case FinalStage => 3
  }

  /** The configuration methods in the order the return types chain them. */
  const Configuration: seq<Call> := [WithInputPolicies, WithProcessors, WithOutputPolicies]

  /** The members a stage interface exposes: its own configuration method, if
      any, and the inherited `Build`. */
  function Exposed(s: Stage): (r: set<Call>)
    ensures Build in r
    ensures r == {Build} <==> s == FinalStage
    ensures forall c :: c in r && c != Build ==> Rank(s) < |Configuration| && c == Configuration[Rank(s)]
  {
    match s
    case InputStage => {WithInputPolicies, Build}
    case ProcessorStage => {WithProcessors, Build}
    case OutputStage => {WithOutputPolicies, Build}
    case FinalStage => {Build}
  }

  /**
   * Calling member `c` on value `v`: defined exactly when `v` is a builder whose
   * stage exposes `c`. A configuration method moves one stage on; `Build`
   * returns the engine.
   */
  function Invoke(v: Value, c: Call): (r: Option<Value>)
    ensures r.Some? <==> v.Builder? && c in Exposed(v.stage)
    ensures r.Some? ==> (r.value.Engine? <==> c == Build)
    ensures r.Some? && r.value.Builder? ==> Rank(r.value.stage) == Rank(v.stage) + 1
  {
    match (v, c)
    case (Builder(InputStage), WithInputPolicies) => Some(Builder(ProcessorStage))
    case (Builder(ProcessorStage), WithProcessors) => Some(Builder(OutputStage))
    case (Builder(OutputStage), WithOutputPolicies) => Some(Builder(FinalStage))
    case (Builder(_), Build) => Some(Engine)
    case _ => None
  }

  /** The value a chain of calls on `v` ends in, if every call is exposed. */
  function Eval(v: Value, calls: seq<Call>): Option<Value>
    decreases |calls|
  {
    if calls == [] then Some(v)
    else match Invoke(v, calls[0])
      case None => None
      case Some(w) => Eval(w, calls[1..])
  }

  /** A chain that compiles when written after the input stage builder. */
  predicate Expressible(calls: seq<Call>)
  {
    Eval(Builder(InputStage), calls).Some?
  }

  predicate IsPrefix(a: seq<Call>, b: seq<Call>)
  {
    |a| <= |b| && a == b[..|a|]
  }

  lemma PrefixCons(c: Call, t: seq<Call>, r: seq<Call>)
    ensures IsPrefix([c] + t, r) <==> r != [] && r[0] == c && IsPrefix(t, r[1..])
  {
    if r != [] && r[0] == c && IsPrefix(t, r[1..]) {
      assert r[..|t| + 1] == [c] + r[1..][..|t|];
    }
    if IsPrefix([c] + t, r) {
      assert r[1..][..|t|] == ([c] + t)[1..];
    }
  }

  /** Some configuration methods taken in order from `rest`, possibly followed
      by a closing `Build`. */
  predicate OrderedChain(rest: seq<Call>, calls: seq<Call>)
  {
    IsPrefix(calls, rest) ||
    (calls != [] && calls[|calls| - 1] == Build && IsPrefix(calls[..|calls| - 1], rest))
  }

  /** The configuration methods still ahead of a stage. */
  function Remaining(s: Stage): seq<Call>
  {
    Configuration[Rank(s)..]
  }

  /**
   * From any stage, a chain is accepted exactly when it takes the remaining
   * configuration methods in order, each at most once, and may end with
   * `Build`; it yields the engine exactly when it ends with `Build`.
   */
  lemma {:induction false} EvalFromStage(s: Stage, calls: seq<Call>)
    ensures Eval(Builder(s), calls).Some? <==> OrderedChain(Remaining(s), calls)
    ensures Eval(Builder(s), calls) == Some(Engine) <==>
      OrderedChain(Remaining(s), calls) && calls != [] && calls[|calls| - 1] == Build
    decreases |calls|
  {
    var rest := Remaining(s);
    if calls != [] {
      var c := calls[0];
      var tail := calls[1..];
      if c == Build {
        if tail == [] {
          assert calls[..0] == [];
        } else {
          assert Eval(Builder(s), calls) == None;
          assert !IsPrefix(calls, rest);
          assert !IsPrefix(calls[..|calls| - 1], rest);
        }
      } else if c in Exposed(s) {
        var next := Invoke(Builder(s), c).value.stage;
        EvalFromStage(next, tail);
        assert rest[0] == c && rest[1..] == Remaining(next);
        assert calls == [c] + tail;
        PrefixCons(c, tail, rest);
        if tail != [] {
          assert calls[..|calls| - 1] == [c] + tail[..|tail| - 1];
          PrefixCons(c, tail[..|tail| - 1], rest);
        }
      } else {
        assert rest == [] || rest[0] != c;
        assert !IsPrefix(calls, rest);
        if |calls| > 1 {
          assert calls[..|calls| - 1][0] == c;
        }
      }
    }
  }

  /**
   * Expressible chains configure the stages only in the order input,
   * processor, output, each at most once, optionally closed by `Build`; any
   * such chain is expressible.
   */
  lemma ExpressibleChains(calls: seq<Call>)
    ensures Expressible(calls) <==> OrderedChain(Configuration, calls)
  {
    EvalFromStage(InputStage, calls);
    assert Remaining(InputStage) == Configuration;
  }

  /** No member is called twice along an expressible chain. */
  lemma NoMemberCalledTwice(calls: seq<Call>, i: nat, j: nat)
    requires Expressible(calls)
    requires i < j < |calls|
    ensures calls[i] != calls[j]
  {
    ExpressibleChains(calls);
    var n := |calls|;
    if IsPrefix(calls, Configuration) {
      assert calls[i] == Configuration[i] && calls[j] == Configuration[j];
    } else {
      var front := calls[..n - 1];
      assert IsPrefix(front, Configuration);
      assert calls[i] == front[i] == Configuration[i];
      if j < n - 1 {
        assert calls[j] == front[j] == Configuration[j];
      }
    }
  }

  /** The stage a builder is at after the first `k` configuration methods. */
  function StageAfter(k: nat): (s: Stage)
    requires k <= |Configuration|
    ensures Rank(s) == k
  {
    if k == 0 then InputStage
    else if k == 1 then ProcessorStage
    else if k == 2 then OutputStage
    else FinalStage
  }

  /**
   * `Build()` can be called from every stage: after any in-order prefix of the
   * configuration methods the builder is at the matching stage, and closing
   * the chain there with `Build` yields the engine. In particular the types do
   * not force every stage to be configured before building.
   */
  lemma {:induction false} BuildFromEveryStage(k: nat)
    requires k <= |Configuration|
    ensures Eval(Builder(InputStage), Configuration[..k]) == Some(Builder(StageAfter(k)))
    ensures Eval(Builder(InputStage), Configuration[..k] + [Build]) == Some(Engine)
  {
    EvalFromStage(InputStage, Configuration[..k] + [Build]);
    assert (Configuration[..k] + [Build])[..k] == Configuration[..k];
    assert Remaining(InputStage) == Configuration;
    EvalRemaining(InputStage, k);
  }

  /** Taking the next `k` configuration methods from stage `s` moves the
      builder `k` stages on. */
  lemma {:induction false} EvalRemaining(s: Stage, k: nat)
    requires k <= |Remaining(s)|
    ensures Rank(s) + k <= |Configuration|
    ensures Eval(Builder(s), Remaining(s)[..k]) == Some(Builder(StageAfter(Rank(s) + k)))
    decreases k
  {
    if k == 0 {
      assert Remaining(s)[..k] == [];
      assert StageAfter(Rank(s)) == s;
    } else {
      var c := Remaining(s)[0];
      assert c == Configuration[Rank(s)];
      assert c in Exposed(s) by {
        match s
        case InputStage =>
        case ProcessorStage =>
        case OutputStage =>
        case FinalStage => assert false;
      }
      var next := Invoke(Builder(s), c).value.stage;
      assert Remaining(s)[..k][1..] == Remaining(next)[..k - 1];
      EvalRemaining(next, k - 1);
    }
  }

  /** Each configuration method is exposed by exactly one stage and moves the
      builder to the next stage; the final stage exposes only `Build`. */
  lemma StageTransitions(s: Stage)
    ensures Invoke(Builder(s), WithInputPolicies).Some? <==> s == InputStage
    ensures Invoke(Builder(s), WithProcessors).Some? <==> s == ProcessorStage
    ensures Invoke(Builder(s), WithOutputPolicies).Some? <==> s == OutputStage
    ensures Invoke(Builder(InputStage), WithInputPolicies) == Some(Builder(ProcessorStage))
    ensures Invoke(Builder(ProcessorStage), WithProcessors) == Some(Builder(OutputStage))
    ensures Invoke(Builder(OutputStage), WithOutputPolicies) == Some(Builder(FinalStage))
    ensures Invoke(Builder(s), Build) == Some(Engine)
  {
  }

  /** After `WithOutputPolicies` nothing but `Build` can follow. */
  lemma NothingAfterOutputPolicies(calls: seq<Call>, i: nat)
    requires Expressible(calls)
    requires i < |calls| && calls[i] == WithOutputPolicies
    ensures calls[i + 1..] == [] || calls[i + 1..] == [Build]
  {
    ExpressibleChains(calls);
  }
}
