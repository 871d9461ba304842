/** Arithmetic expressions over variable bindings and their evaluation.

    The numeric domain is a type parameter `N` together with an `Arith<N>`
    record of operations, so every fact proved here holds for every
    interpretation of the numbers and of the built-in functions (IEEE-754
    float64 with Go's `math.Pow`, `math.Sin` and `math.Sqrt` being one of
    them).
 */
module Expressions {

  /** The numeric operations evaluation needs. `zero` is the value a read of
      an unbound variable yields (the zero value of a Go map). */
  datatype Arith<!N> = Arith(
    zero: N,
    add: (N, N) -> N,
    sub: (N, N) -> N,
    mul: (N, N) -> N,
    div: (N, N) -> N,
    neg: N -> N,
    pow: (N, N) -> N,
    sin: N -> N,
    sqrt: N -> N)

  /** The binding context: variable name to value. */
  type Env<N> = map<string, N>

  /** The five expression forms. The operands of `Unary` and `Binary` are
      variable names, not sub-expressions; only `Call` nests expressions. */
  datatype Expr<N> =
    | Var(name: string)
    | Lit(value: N)
    | Unary(op: char, x: string)
    | Binary(op: char, x: string, y: string)
    | Call(fn: string, args: seq<Expr<N>>)

  /** The panics evaluation can raise. */
  datatype Err =
    | UnsupportedOperator(op: char)
    | UnsupportedFunction(name: string)
    | IndexOutOfRange(index: nat, length: nat)

  /** Outcome of an evaluation: a value, or the panic that aborted it. */
  datatype Result<N> = Success(value: N) | Failure(error: Err) {
    predicate IsFailure() {
      Failure?
    }

    function PropagateFailure<U>(): Result<U>
      requires Failure?
    {
      Failure(error)
    }

    function Extract(): N
      requires Success?
    {
      value
    }
  }

  datatype Option<T> = None | Some(value: T)

  /** The built-in functions a `Call` may name. */
  predicate Known(f: string) {
    f == "pow" || f == "sin" || f == "sqrt"
  }

  /** How many leading arguments a built-in function reads. */
  function Arity(f: string): nat {
    if f == "pow" then 2 else if Known(f) then 1 else 0
  }

  /** Reading a variable: an absent name reads as zero. */
  function Lookup<N>(ar: Arith<N>, env: Env<N>, v: string): N {
    if v in env then env[v] else ar.zero
  }

  /** The diagnosis of an expression: the panic its evaluation raises, if any,
      decided from the tree alone. Operators must be among those handled,
      a call must name a built-in function, and each argument position the
      function reads must exist and be fault-free, the first offending
      position (left to right) giving the panic. */
  function Fault<N>(e: Expr<N>): Option<Err> {
    match e
    case Var(_) => None
    case Lit(_) => None
    case Unary(op, _) =>
      if op == '+' || op == '-' then None else Some(UnsupportedOperator(op))
    case Binary(op, _, _) =>
      if op == '+' || op == '-' || op == '*' || op == '/' then None
      else Some(UnsupportedOperator(op))
    case Call(f, args) =>
      if !Known(f) then Some(UnsupportedFunction(f))
      else if |args| == 0 then Some(IndexOutOfRange(0, 0))
      else if Fault(args[0]).Some? then Fault(args[0])
      else if Arity(f) == 1 then None
      else if |args| == 1 then Some(IndexOutOfRange(1, 1))
      else Fault(args[1])
  }

  /** The shape a tree builder is meant to produce: supported operators, a
      built-in function with exactly its arity, well-formed arguments. */
  predicate WellFormed<N>(e: Expr<N>) {
    match e
    case Var(_) => true
    case Lit(_) => true
    case Unary(op, _) => op == '+' || op == '-'
    case Binary(op, _, _) => op == '+' || op == '-' || op == '*' || op == '/'
    case Call(f, args) =>
      Known(f) && |args| == Arity(f) && forall i :: 0 <= i < |args| ==> WellFormed(args[i])
  }

  /** The variables evaluation of `e` may read: an operand variable of a
      supported operator (for `/` only the right one), and the variables of
      the argument positions a built-in function reads; the second argument
      of `pow` is read only when the first one does not fail. */
  function Reads<N>(e: Expr<N>): set<string> {
    match e
    case Var(v) => {v}
    case Lit(_) => {}
    case Unary(op, x) => if op == '+' || op == '-' then {x} else {}
    case Binary(op, x, y) =>
      if op == '/' then {y}
      else if op == '+' || op == '-' || op == '*' then {x, y}
      else {}
    case Call(f, args) =>
      (if Known(f) && |args| > 0 then Reads(args[0]) else {}) +
      (if Arity(f) == 2 && |args| > 1 && Fault(args[0]).None? then Reads(args[1]) else {})
  }

  /** Evaluation of `e` against `env`. It fails exactly when the diagnosis
      finds a fault, and then with that fault; the bindings never decide
      whether evaluation fails. */
  function Eval<N>(ar: Arith<N>, e: Expr<N>, env: Env<N>): (r: Result<N>)
    ensures r.Failure? <==> Fault(e).Some?
    ensures r.Failure? ==> r.error == Fault(e).value
  {
    match e
    case Var(v) => Success(Lookup(ar, env, v))
    case Lit(c) => Success(c)
    case Unary(op, x) =>
      if op == '+' then Success(Lookup(ar, env, x))
      else if op == '-' then Success(ar.neg(Lookup(ar, env, x)))
      else Failure(UnsupportedOperator(op))
    case Binary(op, x, y) =>
      if op == '+' then Success(ar.add(Lookup(ar, env, x), Lookup(ar, env, y)))
      else if op == '-' then Success(ar.sub(Lookup(ar, env, x), Lookup(ar, env, y)))
      else if op == '*' then Success(ar.mul(Lookup(ar, env, x), Lookup(ar, env, y)))
      else if op == '/' then Success(ar.div(Lookup(ar, env, y), Lookup(ar, env, y)))
      else Failure(UnsupportedOperator(op))
    case Call(f, args) =>
      if f == "pow" then
        var a :- if |args| > 0 then Eval(ar, args[0], env) else Failure(IndexOutOfRange(0, |args|));
        var b :- if |args| > 1 then Eval(ar, args[1], env) else Failure(IndexOutOfRange(1, |args|));
        Success(ar.pow(a, b))
      else if f == "sin" then
        var a :- if |args| > 0 then Eval(ar, args[0], env) else Failure(IndexOutOfRange(0, |args|));
        Success(ar.sin(a))
      else if f == "sqrt" then
        var a :- if |args| > 0 then Eval(ar, args[0], env) else Failure(IndexOutOfRange(0, |args|));
        Success(ar.sqrt(a))
      else
        Failure(UnsupportedFunction(f))
  }
}
