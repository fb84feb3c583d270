/** The syntax tree handed over by the parser. */
module Ast {
  import opened Domain

  datatype Expr =
    | QuantityExpr(literal: Literal)
    | IdentifierExpr(name: string)
    | ReferenceExpr(object_: string, member: string)
    | NegateExpr(operand: Expr)
    | BinaryExpr(op: BinaryOperator, left: Expr, right: Expr)
    | CallExpr(function_: string, argument: Expr)
    | ComparisonExpr(comparison: ComparisonOperator, left: Expr, right: Expr)

  datatype Statement =
    | ReferenceStatement(power: Literal)
    | SweepStatement(dimension: string, start: Literal, end: Literal, step: Literal)
    | MeasurementStatement(name: string, operation: string, legacy: bool)
    | DeriveStatement(name: string, expression: Expr)
    | AssertionStatement(expression: Expr)
    | CalibrationStatement(name: string, correction: Expr, dimensions: seq<string>)

  datatype Program = Program(name: string, statements: seq<Statement>)

  /** What the grammar guarantees of a statement: a sweep names one of the two dimensions,
      identifiers are not empty, and the short form of a measurement is 'power = power'. */
  predicate Grammatical(statement: Statement) {
    match statement
    case SweepStatement(dimension, _, _, _) => dimension == "frequency" || dimension == "temperature"
    case MeasurementStatement(name, operation, legacy) =>
      name != "" && (legacy ==> name == "power" && operation == "power")
    case DeriveStatement(name, _) => name != ""
    case CalibrationStatement(name, _, dimensions) => name != "" && |dimensions| > 0
    case _ => true
  }

  predicate GrammaticalProgram(program: Program) {
    forall statement <- program.statements :: Grammatical(statement)
  }

  /** No sweep declaration follows the calibration. */
  predicate SweepsPrecedeCalibration(statements: seq<Statement>) {
    forall i, j :: 0 <= i < j < |statements| && statements[i].CalibrationStatement? ==>
      !statements[j].SweepStatement?
  }
}
