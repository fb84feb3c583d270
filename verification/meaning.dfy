/** The meaning of a script at an operating point, read off its statements in order, and its
    preservation by analysis. */
module Meanings {
  import opened Domain
  import opened Ast
  import opened Points
  import opened Analysis
  import opened AnalysisCorrectness
  import opened AnalyzedPrograms
  import S = Semantic

  // ----- Reading a script -----

  /** The relation a comparison operator stands for. */
  predicate Relates(op: ComparisonOperator, x: real, y: real) {
    match op
    case Less => x < y
    case LessEqual => x < y || x == y
    case Greater => y < x
    case GreaterEqual => y < x || x == y
    case Equal => x == y
    case NotEqual => x < y || y < x
  }

  /** The value of an expression over the names and the reference known so far. A comparison
      sets the two amounts against each other. */
  function Denotation(e: Expr, names: map<string, Value>, reference: Option<Value>): Option<Value> {
    match e
    case QuantityExpr(literal) =>
      var c := Convert(literal);
      if c.Converted? then Some(Quantity(c.quantity.kind, c.quantity.amount)) else None
    case IdentifierExpr(name) => if name in names then Some(names[name]) else None
    case ReferenceExpr(object_, member) => if object_ == "reference" && member == "power" then reference else None
    case NegateExpr(operand) =>
      var v := Denotation(operand, names, reference);
      if v.Some? && v.value.Quantity? then Some(Quantity(v.value.kind, -v.value.amount)) else None
    case BinaryExpr(op, left, right) =>
      var a, b := Denotation(left, names, reference), Denotation(right, names, reference);
      if a.Some? && a.value.Quantity? && b.Some? && b.value.Quantity? then
        var kind := S.BinaryResult(op, a.value.kind, b.value.kind);
        var amount := if op == Add then a.value.amount + b.value.amount else a.value.amount - b.value.amount;
        if kind.Some? then Some(Quantity(kind.value, amount)) else None
      else None
    case CallExpr(f, argument) =>
      var v := Denotation(argument, names, reference);
      if f == "abs" && v.Some? && v.value.Quantity? then
        Some(Quantity(v.value.kind, if v.value.amount < 0.0 then -v.value.amount else v.value.amount))
      else None
    case ComparisonExpr(op, left, right) =>
      var a, b := Denotation(left, names, reference), Denotation(right, names, reference);
      if a.Some? && a.value.Quantity? && b.Some? && b.value.Quantity?
      then Some(Truth(Relates(op, a.value.amount, b.value.amount))) else None
  }

  /** What the statements read so far have named, derived, asserted and corrected. */
  datatype Meaning = Meaning(
    names: map<string, Value>, reference: Option<Value>, sweeps: nat, readings: nat,
    derived: seq<Option<Value>>, assertions: seq<Option<Value>>, correction: Option<Value>)

  function Name(names: map<string, Value>, name: string, v: Option<Value>): map<string, Value> {
    if v.Some? then names[name := v.value] else names
  }

  /** Each sweep takes the next coordinate of the point, each measurement its next reading. */
  function Advance(m: Meaning, statement: Statement, point: Point): Meaning {
    match statement
    case ReferenceStatement(power) =>
      var dbm := ReadAs(power, Power);
      m.(reference := if dbm.Some? then Some(Quantity(Power, dbm.value)) else None)
    case SweepStatement(dimension, _, _, _) =>
      var v := if m.sweeps < |point.coordinates|
               then Some(Quantity(point.coordinates[m.sweeps].value.kind, point.coordinates[m.sweeps].value.amount))
                 else None;
      m.(names := Name(m.names, dimension, v), sweeps := m.sweeps + 1)
    case MeasurementStatement(name, operation, _) =>
      var op := OperationNamed(operation);
      var v := if op.Some? && m.readings < |point.readings|
               then Some(Quantity(ResultType(op.value), point.readings[m.readings])) else None;
      m.(names := Name(m.names, name, v), readings := m.readings + 1)
    case DeriveStatement(name, expression) =>
      var v := Denotation(expression, m.names, m.reference);
      m.(names := Name(m.names, name, v), derived := m.derived + [v])
    case AssertionStatement(expression) =>
      m.(assertions := m.assertions + [Denotation(expression, m.names, m.reference)])
    case CalibrationStatement(_, correction, _) => m.(correction := Denotation(correction, m.names, m.reference))
  }

  /** The meaning of the first n statements. */
  function Interpret(statements: seq<Statement>, n: nat, point: Point): Meaning
    requires n <= |statements|
  {
    if n == 0 then Meaning(map[], None, 0, 0, [], [], None)
    else Advance(Interpret(statements, n - 1, point), statements[n - 1], point)
  }

  // ----- The environment of an analyzed program solves its declarations -----

  lemma {:induction false} EnvironmentIsTyped(p: S.Program, point: Point, n: nat)
    requires S.WellDeclared(p) && S.PointMatches(p, point) && n <= S.DeclarationCount(p)
    ensures S.EnvironmentTyped(S.Environment(p, point, n), S.Types(p, n))
    ensures forall i :: 0 <= i < n ==> S.DeclaredValue(p, point, i, S.Environment(p, point, i)).Some?
  {
    if n > 0 {
      EnvironmentIsTyped(p, point, n - 1);
      var j, k := n - 1 - |p.sweeps|, n - 1 - |p.sweeps| - |p.measurements|;
      if k >= 0 {
        assert S.WellTypedDerived(p, k);
        S.EvaluationIsTyped(p.derived[k].expression, S.Types(p, n - 1), S.Environment(p, point, n - 1));
      } else if j >= 0 {
        assert p.measurements[j] in p.measurements;
      }
    }
  }

  lemma {:induction false} EnvironmentGrows(p: S.Program, point: Point, m: nat, n: nat, symbol: S.SymbolId)
    requires S.DistinctSymbols(p) && S.PointMatches(p, point) && m <= n <= S.DeclarationCount(p)
    requires symbol in S.Types(p, m) && symbol in S.Environment(p, point, m)
    ensures symbol in S.Environment(p, point, n)
      && S.Environment(p, point, n)[symbol] == S.Environment(p, point, m)[symbol]
    ensures symbol in S.Types(p, n)
    decreases n
  {
    if m < n {
      EnvironmentGrows(p, point, m, n - 1, symbol);
      assert S.Fresh(p, n - 1);
    }
  }

  /** In the full environment every declaration has the value its own definition gives it there:
      a sweep its coordinate, a measurement its reading, a derived quantity its tree. */
  lemma EnvironmentSolves(p: S.Program, point: Point, i: nat)
    requires S.WellDeclared(p) && S.PointMatches(p, point) && i < S.DeclarationCount(p)
    ensures var env := S.FullEnvironment(p, point);
      S.DeclaredSymbol(p, i) in env && Some(env[S.DeclaredSymbol(p, i)]) == S.DeclaredValue(p, point, i, env)
  {
    var env, before, n := S.FullEnvironment(p, point), S.Environment(p, point, i), S.DeclarationCount(p);
    EnvironmentIsTyped(p, point, n);
    EnvironmentIsTyped(p, point, i);
    EnvironmentGrows(p, point, i + 1, n, S.DeclaredSymbol(p, i));
    var k := i - |p.sweeps| - |p.measurements|;
    if k >= 0 {
      assert S.WellTypedDerived(p, k);
      var e := p.derived[k].expression;
      MentionsTyped(e, S.Types(p, i));
      forall s <- S.Mentions(e) ensures s in before && s in env && before[s] == env[s] {
        EnvironmentGrows(p, point, i, n, s);
      }
      S.EvaluationIsLocal(e, before, env);
    }
  }

  lemma ReferenceSolves(p: S.Program, point: Point)
    requires S.WellDeclared(p) && S.PointMatches(p, point)
    ensures var env := S.FullEnvironment(p, point);
      p.referenceSymbol in env && env[p.referenceSymbol] == Quantity(Power, p.reference)
  {
    EnvironmentGrows(p, point, 0, S.DeclarationCount(p), p.referenceSymbol);
  }

  // ----- Analysis preserves meaning -----

  /** Names in scope stand for the values of their symbols. */
  predicate ScopeAgrees(symbols: map<string, Symbol>, reference: Option<Reference>, names: map<string, Value>,
                        power: Option<Value>, env: map<S.SymbolId, Value>) {
    && (forall name <- symbols :: symbols[name].expressionValue ==>
          name in names && symbols[name].id in env && names[name] == env[symbols[name].id])
    && (reference.Some? ==> reference.value.symbol in env && power == Some(env[reference.value.symbol]))
  }

  /** What elaboration makes of the expression, if anything, evaluates to its value over the names. */
  predicate Preserved(e: Expr, symbols: map<string, Symbol>, reference: Option<Reference>, names: map<string, Value>,
                      power: Option<Value>, env: map<S.SymbolId, Value>) {
    var x := Elaborate(e, symbols, reference);
    x.Some? ==> S.Evaluate(x.value, env) == Denotation(e, names, power)
  }

  lemma BinaryPreserved(e: Expr, symbols: map<string, Symbol>, reference: Option<Reference>, names: map<string, Value>,
                        power: Option<Value>, env: map<S.SymbolId, Value>)
    requires e.BinaryExpr?
    requires Preserved(e.left, symbols, reference, names, power, env)
    requires Preserved(e.right, symbols, reference, names, power, env)
    ensures Preserved(e, symbols, reference, names, power, env)
  {
  }

  lemma ComparisonPreserved(e: Expr, symbols: map<string, Symbol>, reference: Option<Reference>,
                            names: map<string, Value>, power: Option<Value>, env: map<S.SymbolId, Value>)
    requires e.ComparisonExpr?
    requires Preserved(e.left, symbols, reference, names, power, env)
    requires Preserved(e.right, symbols, reference, names, power, env)
    ensures Preserved(e, symbols, reference, names, power, env)
  {
  }

  lemma {:induction false} ElaborationPreservesMeaning(e: Expr, symbols: map<string, Symbol>,
                                                       reference: Option<Reference>, names: map<string, Value>,
                                                       power: Option<Value>, env: map<S.SymbolId, Value>)
    requires ScopeAgrees(symbols, reference, names, power, env)
    ensures Preserved(e, symbols, reference, names, power, env)
  {
    match e
    case QuantityExpr(_) =>
    case IdentifierExpr(_) =>
    case ReferenceExpr(_, _) =>
    case NegateExpr(operand) => ElaborationPreservesMeaning(operand, symbols, reference, names, power, env);
    case BinaryExpr(_, left, right) =>
      ElaborationPreservesMeaning(left, symbols, reference, names, power, env);
      ElaborationPreservesMeaning(right, symbols, reference, names, power, env);
      BinaryPreserved(e, symbols, reference, names, power, env);
    case CallExpr(_, argument) => ElaborationPreservesMeaning(argument, symbols, reference, names, power, env);
    case ComparisonExpr(_, left, right) =>
      ElaborationPreservesMeaning(left, symbols, reference, names, power, env);
      ElaborationPreservesMeaning(right, symbols, reference, names, power, env);
      ComparisonPreserved(e, symbols, reference, names, power, env);
  }

  /** The lists only grow, so every state's lists are prefixes of the final ones. */
  predicate Precedes(s: State, t: State) {
    && s.sweeps <= t.sweeps && s.measurements <= t.measurements && s.derived <= t.derived
    && s.assertions <= t.assertions
    && (s.reference.Some? ==> t.reference == s.reference)
    && (s.calibration.Some? ==> t.calibration == s.calibration)
  }

  lemma StepPrecedes(s: State, statement: Statement)
    requires Recorded(s) && Step(s, statement).Some?
    ensures Precedes(s, Step(s, statement).value)
  {
  }

  lemma PrefixPrecedes(statements: seq<Statement>, n: nat)
    requires 0 < n <= |statements| && Analyzed(statements, n).Some?
    ensures Analyzed(statements, n - 1).Some?
    ensures Precedes(Analyzed(statements, n - 1).value, Analyzed(statements, n).value)
  {
    EverythingRecorded(statements, n - 1);
    StepPrecedes(Analyzed(statements, n - 1).value, statements[n - 1]);
  }

  /** The trees recorded so far evaluate to what the script has computed so far. */
  predicate ListsAgree(s: State, m: Meaning, env: map<S.SymbolId, Value>) {
    && m.sweeps == |s.sweeps| && m.readings == |s.measurements|
    && |m.derived| == |s.derived| && |m.assertions| == |s.assertions|
    && (forall k :: 0 <= k < |s.derived| ==> m.derived[k] == S.Evaluate(s.derived[k].expression, env))
    && (forall i :: 0 <= i < |s.assertions| ==> m.assertions[i] == S.Evaluate(s.assertions[i].expression, env))
    && (s.calibration.Some? ==> m.correction == S.Evaluate(s.calibration.value.correction, env))
  }

  predicate Gives(env: map<S.SymbolId, Value>, symbol: S.SymbolId, v: Option<Value>) {
    symbol in env && Some(env[symbol]) == v
  }

  function CoordinateValue(point: Point, i: nat): Option<Value>
    requires i < |point.coordinates|
  {
    Some(Quantity(point.coordinates[i].value.kind, point.coordinates[i].value.amount))
  }

  /** Each declaration's symbol has, in the environment, the value its definition gives it. */
  predicate Solves(t: State, point: Point, env: map<S.SymbolId, Value>) {
    && |t.sweeps| <= |point.coordinates| && |t.measurements| <= |point.readings|
    && (t.reference.Some? ==> Gives(env, t.reference.value.symbol, Some(Quantity(Power, t.reference.value.dbm))))
    && (forall i :: 0 <= i < |t.sweeps| ==> Gives(env, t.sweeps[i].symbol, CoordinateValue(point, i)))
    && (forall j :: 0 <= j < |t.measurements| ==>
          Gives(env, t.measurements[j].symbol,
            Some(Quantity(ResultType(t.measurements[j].operation), point.readings[j]))))
    && (forall k :: 0 <= k < |t.derived| ==>
          Gives(env, t.derived[k].symbol, S.Evaluate(t.derived[k].expression, env)))
  }

  lemma SolvesPrefix(s: State, t: State, point: Point, env: map<S.SymbolId, Value>)
    requires Precedes(s, t) && Solves(t, point, env)
    ensures Solves(s, point, env)
  {
    assert forall i :: 0 <= i < |s.sweeps| ==> s.sweeps[i] == t.sweeps[i];
    assert forall j :: 0 <= j < |s.measurements| ==> s.measurements[j] == t.measurements[j];
    assert forall k :: 0 <= k < |s.derived| ==> s.derived[k] == t.derived[k];
  }

  predicate Agreement(s: State, m: Meaning, env: map<S.SymbolId, Value>) {
    ScopeAgrees(s.symbols, s.reference, m.names, m.reference, env) && ListsAgree(s, m, env)
  }

  /** A new name takes the value of its new symbol. */
  lemma NameAgrees(symbols: map<string, Symbol>, reference: Option<Reference>, names: map<string, Value>,
                   power: Option<Value>, env: map<S.SymbolId, Value>, name: string, symbol: Symbol, v: Option<Value>)
    requires ScopeAgrees(symbols, reference, names, power, env) && name !in symbols
    requires symbol.id in env && v == Some(env[symbol.id])
    ensures ScopeAgrees(Emplace(symbols, name, symbol), reference, Name(names, name, v), power, env)
  {
  }

  lemma SweepAgrees(s: State, t: State, statement: Statement, m: Meaning, point: Point, env: map<S.SymbolId, Value>)
    requires statement.SweepStatement? && Grammatical(statement) && Step(s, statement) == Some(t)
    requires Agreement(s, m, env) && Solves(t, point, env)
    requires DimensionsSeen(s.seenDimensions, s.sweeps, s.frequencySweep)
    requires NamesApart(s.symbols, s.userNames, s.seenDimensions)
    ensures Agreement(t, Advance(m, statement, point), env)
  {
    var i := |s.sweeps|;
    assert t.sweeps[i].symbol == s.nextSymbol;
    NameAgrees(s.symbols, s.reference, m.names, m.reference, env, statement.dimension,
               Symbol(s.nextSymbol, AxisType(DimensionAxis(statement.dimension)), true, true),
               Some(Quantity(point.coordinates[i].value.kind, point.coordinates[i].value.amount)));
  }

  lemma MeasurementAgrees(s: State, t: State, statement: Statement, m: Meaning, point: Point,
                          env: map<S.SymbolId, Value>)
    requires statement.MeasurementStatement? && Grammatical(statement) && Step(s, statement) == Some(t)
    requires Agreement(s, m, env) && Solves(t, point, env)
    requires DimensionsSeen(s.seenDimensions, s.sweeps, s.frequencySweep)
    requires NamesApart(s.symbols, s.userNames, s.seenDimensions)
    ensures Agreement(t, Advance(m, statement, point), env)
  {
    var j, typ := |s.measurements|, ResultType(OperationNamed(statement.operation).value);
    assert t.measurements[j].symbol == s.nextSymbol;
    NameAgrees(s.symbols, s.reference, m.names, m.reference, env, statement.name,
               Symbol(s.nextSymbol, typ, false, true), Some(Quantity(typ, point.readings[j])));
  }

  lemma DerivedAgrees(s: State, t: State, statement: Statement, m: Meaning, point: Point, env: map<S.SymbolId, Value>)
    requires statement.DeriveStatement? && Step(s, statement) == Some(t)
    requires Agreement(s, m, env) && Solves(t, point, env)
    requires DimensionsSeen(s.seenDimensions, s.sweeps, s.frequencySweep)
    requires NamesApart(s.symbols, s.userNames, s.seenDimensions)
    ensures Agreement(t, Advance(m, statement, point), env)
  {
    ElaborationPreservesMeaning(statement.expression, s.symbols, s.reference, m.names, m.reference, env);
    var k := |s.derived|;
    assert t.derived[k].symbol == s.nextSymbol;
    NameAgrees(s.symbols, s.reference, m.names, m.reference, env, statement.name,
               Symbol(s.nextSymbol, t.derived[k].typ, false, true), Some(env[s.nextSymbol]));
  }

  lemma OtherAgrees(s: State, t: State, statement: Statement, m: Meaning, point: Point, env: map<S.SymbolId, Value>)
    requires !statement.SweepStatement? && !statement.MeasurementStatement? && !statement.DeriveStatement?
    requires Step(s, statement) == Some(t) && Recorded(s)
    requires Agreement(s, m, env) && Solves(t, point, env)
    ensures Agreement(t, Advance(m, statement, point), env)
  {
    match statement
    case ReferenceStatement(_) =>
    case AssertionStatement(expression) =>
      ElaborationPreservesMeaning(expression, s.symbols, s.reference, m.names, m.reference, env);
    case CalibrationStatement(_, correction, _) =>
      ElaborationPreservesMeaning(correction, s.symbols, s.reference, m.names, m.reference, env);
  }

  lemma NamesStayApart(statements: seq<Statement>, n: nat)
    requires n <= |statements| && AllGrammatical(statements) && Analyzed(statements, n).Some?
    ensures var s := Analyzed(statements, n).value;
      && DimensionsSeen(s.seenDimensions, s.sweeps, s.frequencySweep)
      && NamesApart(s.symbols, s.userNames, s.seenDimensions)
      && Recorded(s)
  {
    InvariantHolds(statements, n);
  }

  lemma StepAgrees(s: State, t: State, statement: Statement, m: Meaning, point: Point, env: map<S.SymbolId, Value>)
    requires Grammatical(statement) && Step(s, statement) == Some(t)
    requires Agreement(s, m, env) && Solves(t, point, env)
    requires DimensionsSeen(s.seenDimensions, s.sweeps, s.frequencySweep)
    requires NamesApart(s.symbols, s.userNames, s.seenDimensions) && Recorded(s)
    ensures Agreement(t, Advance(m, statement, point), env)
  {
    if statement.SweepStatement? {
      SweepAgrees(s, t, statement, m, point, env);
    } else if statement.MeasurementStatement? {
      MeasurementAgrees(s, t, statement, m, point, env);
    } else if statement.DeriveStatement? {
      DerivedAgrees(s, t, statement, m, point, env);
    } else {
      OtherAgrees(s, t, statement, m, point, env);
    }
  }

  /** The environment solves the state after n statements. */
  ghost predicate Settled(statements: seq<Statement>, n: nat, point: Point, env: map<S.SymbolId, Value>)
    requires n <= |statements|
  {
    exists t :: Analyzed(statements, n) == Some(t) && Solves(t, point, env)
  }

  /** There the script has computed what the trees recorded so far evaluate to. */
  ghost predicate Reached(statements: seq<Statement>, n: nat, point: Point, env: map<S.SymbolId, Value>)
    requires n <= |statements|
  {
    exists s, m :: Analyzed(statements, n) == Some(s) && Interpret(statements, n, point) == m && Agreement(s, m, env)
  }

  lemma SettledBefore(statements: seq<Statement>, n: nat, point: Point, env: map<S.SymbolId, Value>)
    requires 0 < n <= |statements| && Settled(statements, n, point, env)
    ensures Settled(statements, n - 1, point, env)
  {
    var t :| Analyzed(statements, n) == Some(t) && Solves(t, point, env);
    PrefixPrecedes(statements, n);
    SolvesPrefix(Analyzed(statements, n - 1).value, t, point, env);
  }

  lemma ReachedNext(statements: seq<Statement>, n: nat, point: Point, env: map<S.SymbolId, Value>)
    requires 0 < n <= |statements| && AllGrammatical(statements)
    requires Reached(statements, n - 1, point, env) && Settled(statements, n, point, env)
    ensures Reached(statements, n, point, env)
  {
    var t :| Analyzed(statements, n) == Some(t) && Solves(t, point, env);
    var s, m :|
      Analyzed(statements, n - 1) == Some(s) && Interpret(statements, n - 1, point) == m && Agreement(s, m, env);
    NamesStayApart(statements, n - 1);
    assert statements[n - 1] in statements;
    StepAgrees(s, t, statements[n - 1], m, point, env);
  }

  lemma {:induction false} PrefixReaches(statements: seq<Statement>, n: nat, point: Point,
                                         env: map<S.SymbolId, Value>)
    requires n <= |statements| && AllGrammatical(statements) && Settled(statements, n, point, env)
    ensures Reached(statements, n, point, env)
  {
    if n == 0 {
      assert Agreement(Initial(), Interpret(statements, 0, point), env);
    } else {
      SettledBefore(statements, n, point, env);
      PrefixReaches(statements, n - 1, point, env);
      ReachedNext(statements, n, point, env);
    }
  }

  lemma PrefixAgrees(statements: seq<Statement>, n: nat, point: Point, env: map<S.SymbolId, Value>)
    requires n <= |statements| && AllGrammatical(statements) && Analyzed(statements, n).Some?
    requires Solves(Analyzed(statements, n).value, point, env)
    ensures Agreement(Analyzed(statements, n).value, Interpret(statements, n, point), env)
  {
    assert Analyzed(statements, n) == Some(Analyzed(statements, n).value);
    PrefixReaches(statements, n, point, env);
  }

  lemma FullEnvironmentSolves(p: S.Program, s: State, point: Point)
    requires S.WellDeclared(p) && S.PointMatches(p, point)
    requires s.sweeps == p.sweeps && s.measurements == p.measurements && s.derived == p.derived
    requires s.reference == Some(Reference(p.referenceSymbol, p.reference))
    ensures Solves(s, point, S.FullEnvironment(p, point))
  {
    var env := S.FullEnvironment(p, point);
    ReferenceSolves(p, point);
    forall i | 0 <= i < |p.sweeps| ensures Gives(env, p.sweeps[i].symbol, CoordinateValue(point, i)) {
      EnvironmentSolves(p, point, i);
    }
    forall j | 0 <= j < |p.measurements|
      ensures Gives(env, p.measurements[j].symbol,
        Some(Quantity(ResultType(p.measurements[j].operation), point.readings[j])))
    {
      EnvironmentSolves(p, point, |p.sweeps| + j);
    }
    forall k | 0 <= k < |p.derived| ensures Gives(env, p.derived[k].symbol, S.Evaluate(p.derived[k].expression, env)) {
      EnvironmentSolves(p, point, |p.sweeps| + |p.measurements| + k);
    }
  }

  /** The values a program's trees have in an environment are those its script computes. */
  predicate SameMeaning(p: S.Program, m: Meaning, env: map<S.SymbolId, Value>) {
    && |m.derived| == |p.derived| && |m.assertions| == |p.assertions|
    && (forall k :: 0 <= k < |p.derived| ==>
       p.derived[k].symbol in env && m.derived[k] == Some(env[p.derived[k].symbol]))
    && (forall i :: 0 <= i < |p.assertions| ==> m.assertions[i] == S.Evaluate(p.assertions[i].expression, env))
    && m.correction == S.Evaluate(p.calibration.correction, env)
  }

  /** Analysis preserves meaning: reading the script statement by statement, name by name, gives
      the values of the analyzed trees over symbols, although declarations are regrouped. */
  lemma AnalysisPreservesMeaning(program: Program, point: Point)
    requires GrammaticalProgram(program) && Analyze(program).Some?
    requires S.PointMatches(Analyze(program).value, point)
    ensures var p := Analyze(program).value;
      SameMeaning(p, Interpret(program.statements, |program.statements|, point), S.FullEnvironment(p, point))
  {
    var n, p := |program.statements|, Analyze(program).value;
    var s := Analyzed(program.statements, n).value;
    EverythingRecorded(program.statements, n);
    AnalyzerIsSound(program);
    FullEnvironmentSolves(p, s, point);
    PrefixAgrees(program.statements, n, point, S.FullEnvironment(p, point));
  }
}
