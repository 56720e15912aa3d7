# Atrea.PolicyEngine: sequential async runner and staged builder

This project holds a Dafny model of two parts of the Atrea policy engine, plus proofs about them.

- **The sequential asynchronous processor runner** (`AsyncProcessorRunnerDecorator`). It keeps a
  read-only collection of async processors. For one item it awaits each processor's
  `ProcessAsync(item)` in collection order before it starts the next one. The model has three parts:
  - `AsyncProcessorRunnerDecorator`, a class whose two `const` fields are the inner runner and the
    processor collection.
  - `Item`, a class holding the shared mutable item state.
  - `RunProcessors`, a `while` loop proved against the specification function `Execute`. The loop
    invariant says the item state equals `Execute` over the processors run so far.

  Each processor is a state transformer: its task either runs to completion or faults, and either way
  it leaves a new item state. A faulted task's exception propagates out of the loop and is returned
  as a `Failure`. The runner also returns the trace of its await points (`Start`, `Complete`,
  `Fault`). The trace lets the model state "in order", "exactly once" and "never two at once".
- **The staged builder interfaces** (`IInputPolicyEngineBuilder`, `IProcessorPolicyEngineBuilder`,
  `IOutputPolicyEngineBuilder`, `IPolicyEngineBuilder`). Each stage is a constructor of `Stage`.
  Each interface member is a `Call`. `Invoke` is the partial transition that the method return types
  define. A fluent chain is a sequence of calls evaluated from the input stage. Every stage interface
  extends `IPolicyEngineBuilder<T>`, so `Build` is exposed by every stage.

Files: `wrappers.dfy` (`Option`), `processor_runners.dfy` (module `ProcessorRunners`) and
`builders.dfy` (module `Builders`).

Every stage interface in `IPolicyEngineBuilder.cs` inherits `Build()` from `IPolicyEngineBuilder<T>`
(lines 8, 18 and 28). So a chain written on a value of type `IInputPolicyEngineBuilder<T>` may call
`Build()` before every stage is configured, even straight away (`Builders.BuildFromEveryStage`).
Whether the concrete builder then rejects such an engine cannot be seen in these interfaces.

Two definitions carry the model without a row of their own, because their meaning is stated by the
lemmas about them:
- `ProcessorRunners.Item` is the item passed to `RunProcessors` and to every `ProcessAsync` call
  (AsyncProcessorRunnerDecorator.cs:17 and 21). It is one shared object whose state each processor
  replaces in turn.
- `Builders.Eval` is a fluent call chain (IPolicyEngineBuilder.cs:8-44). It applies the calls one by
  one, each to the value the previous call returned, and is undefined as soon as one call is not
  exposed by the current stage.

## Model

| member | source | states |
|---|---|---|
| `ProcessorRunners.AsyncProcessorRunnerDecorator.constructor` | src/Atrea.PolicyEngine/Internal/ProcessorRunners/AsyncProcessorRunnerDecorator.cs:9-15 | stores the inner runner and the processor collection verbatim; in the model both are `const`, so the collection is a snapshot that no later call can change |
| `ProcessorRunners.AsyncProcessorRunnerDecorator.RunProcessors` | src/Atrea.PolicyEngine/Internal/ProcessorRunners/AsyncProcessorRunnerDecorator.cs:17-23 | changes only the item; the new item state, the propagated failure and the trace are exactly `Execute` of the configured collection on the old item state; an empty collection leaves the item unchanged |
| `ProcessorRunners.Execute` | src/Atrea.PolicyEngine/Internal/ProcessorRunners/AsyncProcessorRunnerDecorator.cs:19-22 | a reported failure names a processor position inside the collection |
| `ProcessorRunners.InvokedInOrder` | src/Atrea.PolicyEngine/Internal/ProcessorRunners/AsyncProcessorRunnerDecorator.cs:19-22 | processors start in collection order, each once: all positions 0..n-1 when none fails, and exactly positions 0..k when processor k fails |
| `ProcessorRunners.NoProcessorAfterFailure` | src/Atrea.PolicyEngine/Internal/ProcessorRunners/AsyncProcessorRunnerDecorator.cs:21 | after processor k faults, no processor at a later position is started |
| `ProcessorRunners.FailureIsFinal` | src/Atrea.PolicyEngine/Internal/ProcessorRunners/AsyncProcessorRunnerDecorator.cs:19-22 | once a prefix of the collection has failed, appending any further processors changes neither the item state, the failure nor the trace |
| `ProcessorRunners.AtMostOneInFlight` | src/Atrea.PolicyEngine/Internal/ProcessorRunners/AsyncProcessorRunnerDecorator.cs:21 | counting starts against finishes (completions or faults), at every point of the trace at most one processor is started and unfinished, and none is when the run ends; which task finishes is stated by `OneAtATime` |
| `ProcessorRunners.TraceShape` | src/Atrea.PolicyEngine/Internal/ProcessorRunners/AsyncProcessorRunnerDecorator.cs:19-22 | with no failure the trace is start 0, complete 0, ..., start n-1, complete n-1; when processor k faults, processors 0..k-1 each started and completed normally, followed by start k and fault k |
| `ProcessorRunners.OneAtATime` | src/Atrea.PolicyEngine/Internal/ProcessorRunners/AsyncProcessorRunnerDecorator.cs:21 | the run starts with processor 0; every completion or fault directly follows the start of the same processor; every later start directly follows the normal completion of the processor before it |
| `ProcessorRunners.ExecuteFront` | src/Atrea.PolicyEngine/Internal/ProcessorRunners/AsyncProcessorRunnerDecorator.cs:19-22 | running `[p] + ps` is `p` on the item, then `ps` on the state `p` left, with failure positions shifted by one; if `p` faults, its failure is the result |
| `ProcessorRunners.ExecuteIsComposition` | src/Atrea.PolicyEngine/Internal/ProcessorRunners/AsyncProcessorRunnerDecorator.cs:19-22 | the runner's final state and failure equal the head-first, left-to-right composition `Compose`, so each processor sees the state its predecessors left |
| `ProcessorRunners.IncrementThenDouble` | src/Atrea.PolicyEngine/Internal/ProcessorRunners/AsyncProcessorRunnerDecorator.cs:19-22 | increment then double takes a counter from 1 to 4, with the two processors started and completed in that order |
| `Builders.Exposed` | src/Atrea.PolicyEngine/Builders/IPolicyEngineBuilder.cs:8-44 | every stage exposes `Build`; only the final stage exposes nothing else; any other exposed member is the stage's own configuration method |
| `Builders.Invoke` | src/Atrea.PolicyEngine/Builders/IPolicyEngineBuilder.cs:8-44 | a call is defined exactly when the receiver is a builder whose stage exposes it; `Build`, and only `Build`, yields the engine; a configuration method moves exactly one stage on |
| `Builders.StageTransitions` | src/Atrea.PolicyEngine/Builders/IPolicyEngineBuilder.cs:8-36 | `WithInputPolicies`, `WithProcessors` and `WithOutputPolicies` are each exposed only by the input, processor and output stage respectively, and go to the processor, output and final stage; `Build` works on every stage |
| `Builders.EvalFromStage` | src/Atrea.PolicyEngine/Builders/IPolicyEngineBuilder.cs:8-44 | from any stage, a chain is accepted exactly when it is an in-order prefix of the remaining configuration methods, optionally closed by `Build`; it yields the engine exactly when it ends with `Build` |
| `Builders.ExpressibleChains` | src/Atrea.PolicyEngine/Builders/IPolicyEngineBuilder.cs:8-36 | a chain written on the input-stage builder type-checks if and only if it configures input, processor and output in that order, each at most once, optionally followed by `Build` |
| `Builders.NoMemberCalledTwice` | src/Atrea.PolicyEngine/Builders/IPolicyEngineBuilder.cs:15-35 | no member appears twice along an expressible chain |
| `Builders.EvalRemaining` | src/Atrea.PolicyEngine/Builders/IPolicyEngineBuilder.cs:8-36 | taking the next k configuration methods from any stage moves the builder k stages on |
| `Builders.BuildFromEveryStage` | src/Atrea.PolicyEngine/Builders/IPolicyEngineBuilder.cs:8-44 | after each of the four in-order prefixes the builder is at the matching stage, and `Build` there yields the engine: the types do not force every stage to be configured |
| `Builders.NothingAfterOutputPolicies` | src/Atrea.PolicyEngine/Builders/IPolicyEngineBuilder.cs:28-44 | after `WithOutputPolicies` an expressible chain continues with nothing or with `Build` alone |

## Left out

- Tasks and `await` are modelled as one atomic step per processor. Thread scheduling, continuations and cancellation are not modelled.
- The base class `BaseProcessorRunnerDecorator` and the inner `IAsyncProcessorRunner` chain are not part of this model. The inner runner is stored as an opaque value of a type parameter and is never called.
- Concrete processors, input policies and output policies are caller-supplied. A processor is an arbitrary total function from item state to a completed or faulted step. Policies do not appear, because the builder members are modelled without their collection arguments.
- The builder interfaces do not show the concrete builder, `Configure()`, `WithAsyncProcessors` or `WithParallelProcessors`. This model covers only the stage transitions declared in `IPolicyEngineBuilder.cs`, not what the concrete builder stores or how `Build` assembles the engine.
- The parallel runner (`WithParallelProcessors`) and the `And`/`Or`/`Xor` input-policy combinators are not part of this model: their implementations are not available.
- The example program that nests engines only wires mock collaborators and has no logic of its own, so it is not modelled.
- ProcessorRunners.AsyncProcessorRunnerDecorator.RunProcessors: a faulted processor's exception comes back as a returned `Failure` instead of a propagated exception. The trace is an extra out-parameter that records the await points.
- ProcessorRunners.AsyncProcessorRunnerDecorator.constructor: the C# field keeps a reference to the caller's `IEnumerable` and enumerates it again on every `RunProcessors` call. A caller that changes that list after construction, or passes a lazy query, therefore changes which processors later calls run, and changing it during a run makes the enumerator throw. The model stores the collection as an immutable sequence taken at construction, so it does not capture aliasing of the collection or changes to it.
- Builders.Expressible, Builders.NoMemberCalledTwice, Builders.ExpressibleChains, Builders.NothingAfterOutputPolicies: these cover one unbroken fluent chain. C# also lets a caller keep an intermediate builder in a variable and call it again, for example `WithProcessors` twice on the same processor-stage builder or `Build()` twice on one builder, and lets a caller cast a builder to another interface. The model does not cover such reuse or casts, nor what the concrete builder does after them. The interfaces prevent a second configuration call only within a single chain.
