/** What evaluation promises: the meaning of each expression form, which
    trees fail and how, and how far the result depends on the bindings. */
module EvalProperties {
  import opened Expressions

  /** Two binding contexts read alike on every variable of `vs`. */
  ghost predicate AgreeOn<N>(ar: Arith<N>, env1: Env<N>, env2: Env<N>, vs: set<string>) {
    forall v :: v in vs ==> Lookup(ar, env1, v) == Lookup(ar, env2, v)
  }

  // ---------------------------------------------------------------------
  // Variables and literals

  /** A variable reads its binding, and zero when it is unbound; it never fails. */
  lemma EvalVar<N>(ar: Arith<N>, v: string, env: Env<N>)
    ensures v in env ==> Eval(ar, Var(v), env) == Success(env[v])
    ensures v !in env ==> Eval(ar, Var(v), env) == Success(ar.zero)
  {
  }

  /** A literal yields its stored value whatever the bindings. */
  lemma EvalLit<N>(ar: Arith<N>, c: N, env: Env<N>)
    ensures Eval(ar, Lit(c), env) == Success(c)
  {
  }

  // ---------------------------------------------------------------------
  // Unary and binary operators

  /** Prefix `+` leaves the operand variable's value unchanged, prefix `-`
      negates it, and every other operator fails with that operator. */
  lemma EvalUnary<N>(ar: Arith<N>, op: char, x: string, env: Env<N>)
    ensures op == '+' ==> Eval(ar, Unary(op, x), env) == Eval(ar, Var(x), env)
    ensures op == '-' ==> Eval(ar, Unary(op, x), env) == Success(ar.neg(Eval(ar, Var(x), env).value))
    ensures op != '+' && op != '-' ==> Eval(ar, Unary(op, x), env) == Failure(UnsupportedOperator(op))
  {
  }

  /** `+`, `-` and `*` combine the values of `x` and `y`, in that order. */
  lemma EvalBinaryArith<N>(ar: Arith<N>, x: string, y: string, env: Env<N>)
    ensures Eval(ar, Binary('+', x, y), env) == Success(ar.add(Lookup(ar, env, x), Lookup(ar, env, y)))
    ensures Eval(ar, Binary('-', x, y), env) == Success(ar.sub(Lookup(ar, env, x), Lookup(ar, env, y)))
    ensures Eval(ar, Binary('*', x, y), env) == Success(ar.mul(Lookup(ar, env, x), Lookup(ar, env, y)))
  {
  }

  /** `/` divides the right operand's value by itself: neither the left
      operand's name nor its binding has any influence on the result. */
  lemma DivIgnoresLeft<N>(ar: Arith<N>, x1: string, x2: string, y: string, env1: Env<N>, env2: Env<N>)
    requires Lookup(ar, env1, y) == Lookup(ar, env2, y)
    ensures Eval(ar, Binary('/', x1, y), env1) == Success(ar.div(Lookup(ar, env1, y), Lookup(ar, env1, y)))
    ensures Eval(ar, Binary('/', x1, y), env1) == Eval(ar, Binary('/', x2, y), env2)
  {
  }

  /** A binary operator outside `+ - * /` fails with that operator and yields no value. */
  lemma EvalBinaryUnsupported<N>(ar: Arith<N>, op: char, x: string, y: string, env: Env<N>)
    requires op != '+' && op != '-' && op != '*' && op != '/'
    ensures Eval(ar, Binary(op, x, y), env) == Failure(UnsupportedOperator(op))
  {
  }

  // ---------------------------------------------------------------------
  // Calls

  /** `pow` succeeds exactly when it has two arguments or more and the first
      two succeed, and then raises the first to the second. Missing
      positions fail as out-of-range indexes, after the first argument has
      been evaluated. */
  lemma EvalPow<N>(ar: Arith<N>, args: seq<Expr<N>>, env: Env<N>)
    ensures var r := Eval(ar, Call("pow", args), env);
      r.Success? <==> |args| >= 2 && Eval(ar, args[0], env).Success? && Eval(ar, args[1], env).Success?
    ensures var r := Eval(ar, Call("pow", args), env);
      r.Success? ==> r.value == ar.pow(Eval(ar, args[0], env).value, Eval(ar, args[1], env).value)
    ensures |args| == 0 ==> Eval(ar, Call("pow", args), env) == Failure(IndexOutOfRange(0, 0))
    ensures |args| == 1 && Eval(ar, args[0], env).Success? ==>
      Eval(ar, Call("pow", args), env) == Failure(IndexOutOfRange(1, 1))
  {
  }

  /** `sin` and `sqrt` need one argument: without it the call fails as an
      out-of-range index; with it the call succeeds exactly when the
      argument does, and applies the function to its value. */
  lemma EvalSinSqrt<N>(ar: Arith<N>, f: string, args: seq<Expr<N>>, env: Env<N>)
    requires f == "sin" || f == "sqrt"
    ensures |args| == 0 ==> Eval(ar, Call(f, args), env) == Failure(IndexOutOfRange(0, 0))
    ensures var r := Eval(ar, Call(f, args), env);
      r.Success? <==> |args| >= 1 && Eval(ar, args[0], env).Success?
    ensures var r := Eval(ar, Call(f, args), env);
      r.Success? && f == "sin" ==> r.value == ar.sin(Eval(ar, args[0], env).value)
    ensures var r := Eval(ar, Call(f, args), env);
      r.Success? && f == "sqrt" ==> r.value == ar.sqrt(Eval(ar, args[0], env).value)
  {
  }

  /** A function name outside `pow`, `sin`, `sqrt` fails with that name,
      whatever the arguments. */
  lemma EvalUnknownFunction<N>(ar: Arith<N>, f: string, args: seq<Expr<N>>, env: Env<N>)
    requires !Known(f)
    ensures Eval(ar, Call(f, args), env) == Failure(UnsupportedFunction(f))
  {
  }

  /** Arguments beyond those a function reads are never evaluated: appending
      any of them changes nothing. */
  lemma ExtraArgsIgnored<N>(ar: Arith<N>, f: string, args: seq<Expr<N>>, extra: seq<Expr<N>>, env: Env<N>)
    requires |args| >= Arity(f)
    ensures Eval(ar, Call(f, args + extra), env) == Eval(ar, Call(f, args), env)
  {
  }

  /** A failing argument at a position the function reads, after arguments
      that all succeeded, is the failure of the whole call. */
  lemma ArgFailurePropagates<N>(ar: Arith<N>, f: string, args: seq<Expr<N>>, i: nat, env: Env<N>)
    requires Known(f) && i < Arity(f) && i < |args|
    requires forall j :: 0 <= j < i ==> Eval(ar, args[j], env).Success?
    requires Eval(ar, args[i], env).Failure?
    ensures Eval(ar, Call(f, args), env) == Eval(ar, args[i], env)
  {
  }

  // ---------------------------------------------------------------------
  // Whole trees

  /** Whether evaluation fails, and with which panic, is decided by the tree
      alone: the bindings never make an evaluation fail or succeed. */
  lemma FailureIgnoresEnv<N>(ar: Arith<N>, e: Expr<N>, env1: Env<N>, env2: Env<N>)
    ensures Eval(ar, e, env1).Failure? <==> Eval(ar, e, env2).Failure?
    ensures Eval(ar, e, env1).Failure? ==> Eval(ar, e, env1) == Eval(ar, e, env2)
  {
  }

  /** A tree of the shape a builder is meant to produce never fails. */
  lemma {:induction false} WellFormedNeverFails<N>(ar: Arith<N>, e: Expr<N>, env: Env<N>)
    requires WellFormed(e)
    ensures Eval(ar, e, env).Success?
  {
    match e
    case Call(f, args) =>
      WellFormedNeverFails(ar, args[0], env);
      if f == "pow" {
        WellFormedNeverFails(ar, args[1], env);
      }
    case _ =>
  }

  /** The result depends on the bindings only through the variables in
      `Reads(e)`: contexts that read alike there give the same result. */
  lemma {:induction false} EnvLocality<N>(ar: Arith<N>, e: Expr<N>, env1: Env<N>, env2: Env<N>)
    requires AgreeOn(ar, env1, env2, Reads(e))
    ensures Eval(ar, e, env1) == Eval(ar, e, env2)
  {
    match e
    case Call(f, args) =>
      if Known(f) && |args| > 0 {
        EnvLocality(ar, args[0], env1, env2);
      }
      if Arity(f) == 2 && |args| > 1 && Fault(args[0]).None? {
        EnvLocality(ar, args[1], env1, env2);
      }
    case _ =>
  }

  /** Binding an unbound variable to zero is indistinguishable from leaving
      it unbound. */
  lemma UnboundReadsZero<N>(ar: Arith<N>, e: Expr<N>, env: Env<N>, v: string)
    requires v !in env
    ensures Eval(ar, e, env[v := ar.zero]) == Eval(ar, e, env)
  {
    assert AgreeOn(ar, env[v := ar.zero], env, Reads(e));
    EnvLocality(ar, e, env[v := ar.zero], env);
  }
}
