# Arithmetic expression evaluator — Dafny model

This project models the evaluator of the Go package `eval` (`eval/eval.go`).
An expression is one of five forms: a variable reference, a numeric literal,
a prefix `+`/`-` operator, an infix `+ - * /` operator, and a call of a
built-in function, `pow`, `sin` or `sqrt`. Each form is evaluated against an
`Env`, a map from variable names to numbers. Evaluation either returns a
number or panics.

Two Dafny modules:

- `Expressions` (`eval.dfy`) holds the data model and evaluation:
  - `Expr<N>` has the constructors `Var`, `Lit`, `Unary`, `Binary` and
    `Call`, one for each Go type `Var`, `literal`, `unary`, `binary` and
    `call`.
  - `Env<N>` is a `map<string, N>`.
  - `Err` holds the three panics evaluation can raise: an unsupported
    operator (with its rune), an unsupported function (with its name), and
    an index out of range (with index and length, as Go's runtime reports it).
  - `Eval` is the five `Eval` methods as one recursive function returning
    `Result<N>`.
  - `Fault` is a static diagnosis of a tree: which panic, if any, its
    evaluation raises.
  - `WellFormed` is the shape a tree builder is meant to produce.
  - `Reads` is the set of variables an evaluation may consult.
- `EvalProperties` (`eval_properties.dfy`) holds the lemmas. They cover each
  form's meaning, which trees fail and how, and how much the bindings matter.

Numbers are a type parameter `N` with a record `Arith<N>` of operations:
`zero`, `add`, `sub`, `mul`, `div`, `neg`, `pow`, `sin` and `sqrt`. Every
lemma holds for every choice of these, so nothing proved depends on IEEE-754
float64 or on the Go `math` library. `zero` is what a read of an absent key
yields, the zero value of a Go map.

Points where the code behaves differently from what one might expect:

- The operands of `unary` and `binary` are typed `Var` (eval/eval.go:26,
  eval/eval.go:32). So they are variable names, not sub-expressions, and only
  `call` arguments nest.
- `/` computes `y / y` (eval/eval.go:72). The left operand is never read.
  This is modelled as written and stated by `DivIgnoresLeft`.
- A known function given too few arguments panics with an index out of
  range. That is a third kind of failure beside the two unsupported-name
  errors, and `Err` has it as `IndexOutOfRange`.

Evaluation is a Dafny function, so it is deterministic by construction: the
same tree and bindings always give the same result, and nothing persists
between calls. `EnvLocality` states the stronger fact: only the bindings of
the variables in `Reads(e)` matter. For `pow`, the second argument's variables belong to
`Reads(e)` only when the first argument does not fail, since otherwise the
second is never evaluated.

## Model

| member | source | states |
|---|---|---|
| Expressions.Eval | eval/eval.go:42-89 | Evaluation fails exactly when `Fault` diagnoses the tree, and then with that very panic: unsupported operator, unsupported function, or index out of range at the first missing argument position, whichever comes first left to right |
| EvalProperties.EvalVar | eval/eval.go:42-44 | A variable yields its binding when bound and zero when absent; a variable never fails |
| EvalProperties.EvalLit | eval/eval.go:47-49 | A literal yields exactly its stored value, whatever the bindings |
| EvalProperties.EvalUnary | eval/eval.go:52-60 | Prefix `+` yields the operand variable's value unchanged; prefix `-` yields its negation; any other operator fails with `UnsupportedOperator` carrying that operator |
| EvalProperties.EvalBinaryArith | eval/eval.go:63-70 | `+`, `-` and `*` apply addition, subtraction and multiplication to the values of `x` and `y`, with `x` as the first operand |
| EvalProperties.DivIgnoresLeft | eval/eval.go:71-72 | `/` yields `div(env[y], env[y])`; changing the left operand's name or its binding never changes the result |
| EvalProperties.EvalBinaryUnsupported | eval/eval.go:73-74 | An infix operator outside `+ - * /` fails with `UnsupportedOperator` carrying that operator, and yields no value |
| EvalProperties.EvalPow | eval/eval.go:80-81 | `pow` succeeds iff it has at least two arguments and the first two both succeed, and then yields `pow(a0, a1)`; with no argument it fails at index 0 of length 0; with one successful argument it fails at index 1 of length 1 |
| EvalProperties.EvalSinSqrt | eval/eval.go:82-85 | `sin` and `sqrt` with no argument fail at index 0 of length 0; otherwise they succeed iff the first argument does, and yield `sin` or `sqrt` of its value |
| EvalProperties.EvalUnknownFunction | eval/eval.go:86-88 | A function name other than `pow`, `sin` and `sqrt` fails with `UnsupportedFunction` carrying that name, whatever the arguments |
| EvalProperties.ExtraArgsIgnored | eval/eval.go:78-88 | Arguments after the ones a function reads are never evaluated: appending any expressions, even failing ones, leaves the result unchanged |
| EvalProperties.ArgFailurePropagates | eval/eval.go:80-85 | If a read argument position fails and every earlier one succeeds, the whole call fails with that argument's failure |
| EvalProperties.FailureIgnoresEnv | eval/eval.go:42-89 | Whether evaluation fails, and with which panic, does not depend on the bindings: map reads never panic |
| EvalProperties.WellFormedNeverFails | eval/eval.go:52-85 | A tree using only supported operators, with built-in functions given exactly their arity (`pow` 2, `sin`/`sqrt` 1), never fails, whatever the bindings |
| EvalProperties.EnvLocality | eval/eval.go:12-15 | Evaluation is a pure function of the tree and of the bindings of the variables it reads: contexts that agree on `Reads(e)` give equal results |
| EvalProperties.UnboundReadsZero | eval/eval.go:42-44 | Binding an absent variable to zero gives the same result as leaving it unbound, for every tree |

## Left out

- IEEE-754 arithmetic: NaN from `0/0`, infinities, rounding and signed zero are not modelled. Numbers are the abstract `Arith<N>`. As a result, facts that hold only for float64 are not stated: `y / y` being `1.0` for non-zero `y`, `pow(2, 10)` being `1024.0`, `sqrt(16)` being `4.0`, `sin(0)` being `0.0`.
- The bodies of `math.Pow`, `math.Sin` and `math.Sqrt` are foreign library code. They are the uninterpreted fields `pow`, `sin` and `sqrt` of `Arith<N>`.
- The panic messages built with `fmt.Sprintf` are not modelled. `Err` keeps only the kind of failure and its payload.
- Expressions.Eval: fixes the left-to-right order for `pow` (eval/eval.go:81): `args[0]` is evaluated before `args[1]` is indexed. The Go specification leaves the order between an index operation and a call in the same argument list open. Under the other order, `pow` with a single argument that itself fails would panic with index out of range [1] rather than with that argument's panic; the model (and `Fault`) give the argument's panic.
- Variable names and function names are Dafny `string`s, that is sequences of Unicode scalar values. A Go `Var` (eval/eval.go:18) and `call.function` (eval/eval.go:37) are byte strings, so a name that is not valid UTF-8 cannot be written here.
- Cyclic trees are not modelled. In Go, a `call` can be stored into its own argument slice, since the slice shares its backing array, and evaluating it then recurses until the stack overflows. `Expr<N>` is an inductive datatype and `Eval` is total, so every modelled tree is finite. No code in package `eval` builds such a tree.
- Operator runes are Dafny `char`s, that is Unicode scalar values. A Go `rune` is any `int32`, so negative values and surrogate code points cannot be written as operators here. Any of them would fail as an unsupported operator, like every other unhandled rune.
- A `nil` element in a call's argument slice is not modelled, because a Dafny `Expr` cannot be nil. In Go, reading such an element panics with a nil dereference.
- Go's interface dispatch and unexported types are not modelled. The closed `Expr<N>` datatype replaces them.
- A panic aborting the whole evaluation is modelled as a `Failure` that every enclosing call propagates. Recovering from the panic is outside this package.
