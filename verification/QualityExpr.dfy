/** The quality rules' expression compiler: a restricted Python expression becomes an SQL condition. Python raises
    and stops early; SQL has three truth values and no order of evaluation. */
module QualityExprs {
  import opened Wrappers

  /** Fields and texts are only compared for equality; numbers stand for them. */
  type Field = int

  datatype Value = Num(num: real) | Text(text: int) | Truth(truth: bool)

  datatype Comparison = Eq | Ne | Lt | Le | Gt | Ge | OtherComparison
  datatype Arithmetic = Add | Sub | Mul | Div | Mod | OtherArithmetic

  /** The parsed expression; `Unsupported` stands for every node the compiler does not know. */
  datatype Expr =
    | BoolOp(isAnd: bool, values: seq<Expr>)
    | Not(operand: Expr)
    | Neg(operand: Expr)
    | Compare(left: Expr, links: seq<Link>)
    | BinOp(op: Arithmetic, left: Expr, right: Expr)
    | Name(field: Field)
    | Const(value: Value)
    | Unsupported

  datatype Link = Link(op: Comparison, right: Expr)

  datatype Sql =
    | And(clauses: seq<Sql>)
    | Or(clauses: seq<Sql>)
    | Negation(operand: Sql)
    | Minus(operand: Sql)
    | Test(op: Comparison, left: Sql, right: Sql)
    | Calc(arith: Arithmetic, left: Sql, right: Sql)
    | Column(field: Field)
    | Literal(value: Value)

  datatype Error = BadComparison | BadArithmetic | UnknownField(field: Field) | UnsupportedNode | NotBoolean

  // ---------------------------------------------------------------- compiling

  function Compiled(e: Expr, columns: set<Field>): Result<Sql, Error>
    decreases e, 1, 0
  {
    match e
    case BoolOp(isAnd, values) =>
      (match CompiledValues(e, columns, |values|)
       case Err(error) => Err(error)
       case Ok(clauses) => Ok(if isAnd then And(clauses) else Or(clauses)))
    case Not(operand) =>
      (match Compiled(operand, columns) case Err(error) => Err(error) case Ok(s) => Ok(Negation(s)))
    case Neg(operand) =>
      (match Compiled(operand, columns) case Err(error) => Err(error) case Ok(s) => Ok(Minus(s)))
    case Compare(left, links) =>
      (match CompiledLinks(e, columns, |links|)
       case Err(error) => Err(error)
       case Ok((clauses, _)) => Ok(if |clauses| == 1 then clauses[0] else And(clauses)))
    case BinOp(op, left, right) =>
      if op == OtherArithmetic then Err(BadArithmetic)
      else
        (match (Compiled(left, columns), Compiled(right, columns))
         case (Err(error), _) => Err(error)
         case (_, Err(error)) => Err(error)
         case (Ok(l), Ok(r)) => Ok(Calc(op, l, r)))
    case Name(field) => if field in columns then Ok(Column(field)) else Err(UnknownField(field))
    case Const(value) => Ok(Literal(value))
    case Unsupported => Err(UnsupportedNode)
  }

  function CompiledValues(e: Expr, columns: set<Field>, n: nat): (r: Result<seq<Sql>, Error>)
    requires e.BoolOp? && n <= |e.values|
    ensures r.Ok? ==> |r.value| == n
    decreases e, 0, n
  {
    if n == 0 then Ok([])
    else
      match CompiledValues(e, columns, n - 1)
      case Err(error) => Err(error)
      case Ok(clauses) =>
        match Compiled(e.values[n - 1], columns)
        case Err(error) => Err(error)
        case Ok(s) => Ok(clauses + [s])
  }

  /** The clauses of the first `n` links of a chain, and the operand the next link compares with. */
  function CompiledLinks(e: Expr, columns: set<Field>, n: nat): (r: Result<(seq<Sql>, Sql), Error>)
    requires e.Compare? && n <= |e.links|
    ensures r.Ok? ==> |r.value.0| == n
    decreases e, 0, n
  {
    if n == 0 then
      match Compiled(e.left, columns) case Err(error) => Err(error) case Ok(s) => Ok(([], s))
    else
      match CompiledLinks(e, columns, n - 1)
      case Err(error) => Err(error)
      case Ok((clauses, left)) =>
        match Compiled(e.links[n - 1].right, columns)
        case Err(error) => Err(error)
        case Ok(right) =>
          if e.links[n - 1].op == OtherComparison then Err(BadComparison)
          else Ok((clauses + [Test(e.links[n - 1].op, left, right)], right))
  }

  /** The names an expression uses, in the order of their first use after `seen`. */
  function Names(e: Expr, seen: seq<Field>): seq<Field>
    decreases e, 1, 0
  {
    match e
    case BoolOp(_, values) => NamesInValues(e, seen, |values|)
    case Not(operand) => Names(operand, seen)
    case Neg(operand) => Names(operand, seen)
    case Compare(left, links) => NamesInLinks(e, seen, |links|)
    case BinOp(_, left, right) => Names(right, Names(left, seen))
    case Name(field) => if field in seen then seen else seen + [field]
    case Const(_) => seen
    case Unsupported => seen
  }

  function NamesInValues(e: Expr, seen: seq<Field>, n: nat): seq<Field>
    requires e.BoolOp? && n <= |e.values|
    decreases e, 0, n
  {
    if n == 0 then seen else Names(e.values[n - 1], NamesInValues(e, seen, n - 1))
  }

  function NamesInLinks(e: Expr, seen: seq<Field>, n: nat): seq<Field>
    requires e.Compare? && n <= |e.links|
    decreases e, 0, n
  {
    if n == 0 then Names(e.left, seen) else Names(e.links[n - 1].right, NamesInLinks(e, seen, n - 1))
  }

  class Compiler {
    const columns: set<Field>
    var referenced: seq<Field>

    constructor (columns: set<Field>)
      ensures this.columns == columns && referenced == []
    {
      this.columns, referenced := columns, [];
    }

    /** Walks the tree, building the clause and noting every field the first time it is met. */
    method Build(e: Expr) returns (r: Result<Sql, Error>)
      modifies this`referenced
      ensures r == Compiled(e, columns)
      ensures r.Ok? ==> referenced == Names(e, old(referenced))
      decreases e
    {
      match e
      case BoolOp(isAnd, values) =>
        var clauses: seq<Sql> := [];
        for i := 0 to |values|
          invariant CompiledValues(e, columns, i) == Ok(clauses)
          invariant referenced == NamesInValues(e, old(referenced), i)
        {
          var s := Build(values[i]);
          if s.Err? {
            FirstErrorInValues(e, columns, i, |values|);
            return Err(s.error);
          }
          clauses := clauses + [s.value];
        }
        r := Ok(if isAnd then And(clauses) else Or(clauses));
      case Not(operand) =>
        var s := Build(operand);
        r := if s.Ok? then Ok(Negation(s.value)) else s;
      case Neg(operand) =>
        var s := Build(operand);
        r := if s.Ok? then Ok(Minus(s.value)) else s;
      case Compare(first, links) =>
        var left := Build(first);
        if left.Err? {
          FirstErrorInLinks(e, columns, 0, |links|);
          return left;
        }
        var clauses: seq<Sql> := [];
        var running := left.value;
        for i := 0 to |links|
          invariant CompiledLinks(e, columns, i) == Ok((clauses, running))
          invariant referenced == NamesInLinks(e, old(referenced), i)
        {
          var right := Build(links[i].right);
          if right.Err? || links[i].op == OtherComparison {
            FirstErrorInLinks(e, columns, i + 1, |links|);
            return if right.Err? then right else Err(BadComparison);
          }
          clauses := clauses + [Test(links[i].op, running, right.value)];
          running := right.value;
        }
        r := Ok(if |clauses| == 1 then clauses[0] else And(clauses));
      case BinOp(op, left, right) =>
        if op == OtherArithmetic {
          return Err(BadArithmetic);
        }
        var l := Build(left);
        if l.Err? {
          return l;
        }
        var right' := Build(right);
        r := if right'.Ok? then Ok(Calc(op, l.value, right'.value)) else right';
      case Name(field) =>
        if field !in columns {
          return Err(UnknownField(field));
        }
        if field !in referenced {
          referenced := referenced + [field];
        }
        r := Ok(Column(field));
      case Const(value) => r := Ok(Literal(value));
      case Unsupported => r := Err(UnsupportedNode);
    }

    /** Only a comparison, a Boolean operation or a negation is a condition. */
    method CompileExpression(e: Expr) returns (r: Result<(Sql, seq<Field>), Error>)
      requires referenced == []
      modifies this`referenced
      ensures r.Ok? <==> (e.Compare? || e.BoolOp? || e.Not?) && Supported(e, columns)
      ensures r.Ok? ==> Compiled(e, columns) == Ok(r.value.0) && r.value.1 == Names(e, [])
      ensures r == Err(NotBoolean) <==> !(e.Compare? || e.BoolOp? || e.Not?)
      ensures r.Err? && r.error != NotBoolean ==> Has(e, columns, r.error)
    {
      if !(e.Compare? || e.BoolOp? || e.Not?) {
        return Err(NotBoolean);
      }
      var s := Build(e);
      CompilesIfSupported(e, columns);
      ErrorIsThere(e, columns);
      r := if s.Ok? then Ok((s.value, referenced)) else Err(s.error);
    }
  }

  lemma {:induction false} FirstErrorInValues(e: Expr, columns: set<Field>, i: nat, n: nat)
    requires e.BoolOp? && i < n <= |e.values| && CompiledValues(e, columns, i).Ok? && Compiled(e.values[i], columns).Err?
    ensures CompiledValues(e, columns, n) == Err(Compiled(e.values[i], columns).error)
  {
    if i + 1 < n {
      FirstErrorInValues(e, columns, i, n - 1);
    }
  }

  lemma {:induction false} FirstErrorInLinks(e: Expr, columns: set<Field>, i: nat, n: nat)
    requires e.Compare? && i <= n <= |e.links| && CompiledLinks(e, columns, i).Err?
    ensures CompiledLinks(e, columns, n) == Err(CompiledLinks(e, columns, i).error)
  {
    if i < n {
      FirstErrorInLinks(e, columns, i, n - 1);
    }
  }

  // ---------------------------------------------------------------- what compiles, and which names are reported

  /** No unknown node, operator or field anywhere. */
  predicate Supported(e: Expr, columns: set<Field>) {
    match e
    case BoolOp(_, values) => forall i :: 0 <= i < |values| ==> Supported(values[i], columns)
    case Not(operand) => Supported(operand, columns)
    case Neg(operand) => Supported(operand, columns)
    case Compare(left, links) =>
      Supported(left, columns) &&
      forall i :: 0 <= i < |links| ==> links[i].op != OtherComparison && Supported(links[i].right, columns)
    case BinOp(op, left, right) => op != OtherArithmetic && Supported(left, columns) && Supported(right, columns)
    case Name(field) => field in columns
    case Const(_) => true
    case Unsupported => false
  }

  /** Somewhere in the expression there is what the error complains about. */
  predicate Has(e: Expr, columns: set<Field>, error: Error) {
    match e
    case BoolOp(_, values) => exists i :: 0 <= i < |values| && Has(values[i], columns, error)
    case Not(operand) => Has(operand, columns, error)
    case Neg(operand) => Has(operand, columns, error)
    case Compare(left, links) =>
      || Has(left, columns, error)
      || exists i :: 0 <= i < |links| && ((links[i].op == OtherComparison && error == BadComparison) || Has(links[i].right, columns, error))
    case BinOp(op, left, right) =>
      (op == OtherArithmetic && error == BadArithmetic) || Has(left, columns, error) || Has(right, columns, error)
    case Name(field) => field !in columns && error == UnknownField(field)
    case Const(_) => false
    case Unsupported => error == UnsupportedNode
  }

  /** An error complains about something that is there. */
  lemma {:induction false} ErrorIsThere(e: Expr, columns: set<Field>)
    ensures Compiled(e, columns).Err? ==> Has(e, columns, Compiled(e, columns).error) && Compiled(e, columns).error != NotBoolean
    decreases e, 1, 0
  {
    match e
    case BoolOp(_, values) => ErrorIsInValues(e, columns, |values|);
    case Not(operand) => ErrorIsThere(operand, columns);
    case Neg(operand) => ErrorIsThere(operand, columns);
    case Compare(_, links) => ErrorIsInLinks(e, columns, |links|);
    case BinOp(_, left, right) =>
      ErrorIsThere(left, columns);
      ErrorIsThere(right, columns);
    case _ =>
  }

  lemma {:induction false} ErrorIsInValues(e: Expr, columns: set<Field>, n: nat)
    requires e.BoolOp? && n <= |e.values|
    ensures var r := CompiledValues(e, columns, n);
            r.Err? ==> r.error != NotBoolean && exists i :: 0 <= i < n && Has(e.values[i], columns, r.error)
    decreases e, 0, n
  {
    if n > 0 {
      ErrorIsInValues(e, columns, n - 1);
      ErrorIsThere(e.values[n - 1], columns);
    }
  }

  lemma {:induction false} ErrorIsInLinks(e: Expr, columns: set<Field>, n: nat)
    requires e.Compare? && n <= |e.links|
    ensures var r := CompiledLinks(e, columns, n);
            r.Err? ==> r.error != NotBoolean && Has(e, columns, r.error)
    decreases e, 0, n
  {
    if n > 0 {
      ErrorIsInLinks(e, columns, n - 1);
      ErrorIsThere(e.links[n - 1].right, columns);
    } else {
      ErrorIsThere(e.left, columns);
    }
  }

  lemma {:induction false} CompilesIfSupported(e: Expr, columns: set<Field>)
    ensures Compiled(e, columns).Ok? <==> Supported(e, columns)
    decreases e, 1, 0
  {
    match e
    case BoolOp(_, values) => ValuesCompile(e, columns, |values|);
    case Not(operand) => CompilesIfSupported(operand, columns);
    case Neg(operand) => CompilesIfSupported(operand, columns);
    case Compare(_, links) => LinksCompile(e, columns, |links|);
    case BinOp(_, left, right) =>
      CompilesIfSupported(left, columns);
      CompilesIfSupported(right, columns);
    case _ =>
  }

  lemma {:induction false} ValuesCompile(e: Expr, columns: set<Field>, n: nat)
    requires e.BoolOp? && n <= |e.values|
    ensures CompiledValues(e, columns, n).Ok? <==> forall i :: 0 <= i < n ==> Supported(e.values[i], columns)
    decreases e, 0, n
  {
    if n > 0 {
      ValuesCompile(e, columns, n - 1);
      CompilesIfSupported(e.values[n - 1], columns);
    }
  }

  lemma {:induction false} LinksCompile(e: Expr, columns: set<Field>, n: nat)
    requires e.Compare? && n <= |e.links|
    ensures CompiledLinks(e, columns, n).Ok? <==>
              Supported(e.left, columns) &&
              forall i :: 0 <= i < n ==> e.links[i].op != OtherComparison && Supported(e.links[i].right, columns)
    decreases e, 0, n
  {
    if n > 0 {
      LinksCompile(e, columns, n - 1);
      CompilesIfSupported(e.links[n - 1].right, columns);
    } else {
      CompilesIfSupported(e.left, columns);
    }
  }

  predicate Uses(e: Expr, field: Field) {
    match e
    case BoolOp(_, values) => exists i :: 0 <= i < |values| && Uses(values[i], field)
    case Not(operand) => Uses(operand, field)
    case Neg(operand) => Uses(operand, field)
    case Compare(left, links) => Uses(left, field) || exists i :: 0 <= i < |links| && Uses(links[i].right, field)
    case BinOp(_, left, right) => Uses(left, field) || Uses(right, field)
    case Name(id) => id == field
    case Const(_) => false
    case Unsupported => false
  }

  predicate NoRepeats(fields: seq<Field>) {
    forall i, j :: 0 <= i < j < |fields| ==> fields[i] != fields[j]
  }

  /** The reported fields are exactly the names used, each once. */
  lemma {:induction false} NamesAreUses(e: Expr, seen: seq<Field>, field: Field)
    requires NoRepeats(seen)
    ensures NoRepeats(Names(e, seen)) && (field in Names(e, seen) <==> field in seen || Uses(e, field))
    decreases e, 1, 0
  {
    match e
    case BoolOp(_, values) => NamesInValuesAreUses(e, seen, field, |values|);
    case Not(operand) => NamesAreUses(operand, seen, field);
    case Neg(operand) => NamesAreUses(operand, seen, field);
    case Compare(_, links) => NamesInLinksAreUses(e, seen, field, |links|);
    case BinOp(_, left, right) =>
      NamesAreUses(left, seen, field);
      NamesAreUses(right, Names(left, seen), field);
    case _ =>
  }

  lemma {:induction false} NamesInValuesAreUses(e: Expr, seen: seq<Field>, field: Field, n: nat)
    requires e.BoolOp? && n <= |e.values| && NoRepeats(seen)
    ensures NoRepeats(NamesInValues(e, seen, n))
    ensures field in NamesInValues(e, seen, n) <==> field in seen || exists i :: 0 <= i < n && Uses(e.values[i], field)
    decreases e, 0, n
  {
    if n > 0 {
      NamesInValuesAreUses(e, seen, field, n - 1);
      NamesAreUses(e.values[n - 1], NamesInValues(e, seen, n - 1), field);
    }
  }

  lemma {:induction false} NamesInLinksAreUses(e: Expr, seen: seq<Field>, field: Field, n: nat)
    requires e.Compare? && n <= |e.links| && NoRepeats(seen)
    ensures NoRepeats(NamesInLinks(e, seen, n))
    ensures field in NamesInLinks(e, seen, n) <==>
              field in seen || Uses(e.left, field) || exists i :: 0 <= i < n && Uses(e.links[i].right, field)
    decreases e, 0, n
  {
    if n > 0 {
      NamesInLinksAreUses(e, seen, field, n - 1);
      NamesAreUses(e.links[n - 1].right, NamesInLinks(e, seen, n - 1), field);
    } else {
      NamesAreUses(e.left, seen, field);
    }
  }

  // ---------------------------------------------------------------- the two meanings

  type Row = map<Field, Option<Value>>

  /** What Python gives: a value, or one of the two exceptions an expression can raise. */
  datatype Outcome = Val(value: Value) | ZeroDivision | TypeMismatch

  function Compared(op: Comparison, a: Value, b: Value): Option<bool> {
    match (op, a, b)
    case (Eq, Num(x), Num(y)) => Some(x == y)
    case (Ne, Num(x), Num(y)) => Some(x != y)
    case (Lt, Num(x), Num(y)) => Some(x < y)
    case (Le, Num(x), Num(y)) => Some(x <= y)
    case (Gt, Num(x), Num(y)) => Some(x > y)
    case (Ge, Num(x), Num(y)) => Some(x >= y)
    case (Eq, Text(x), Text(y)) => Some(x == y)
    case (Ne, Text(x), Text(y)) => Some(x != y)
    case (Eq, Truth(x), Truth(y)) => Some(x == y)
    case (Ne, Truth(x), Truth(y)) => Some(x != y)
    case _ => None
  }

  function Product(a: real, b: real): real {
    a * b
  }

  function Quotient(a: real, b: real): real
    requires b != 0.0
  {
    a / b
  }

  /** The whole part of a quotient, cut toward zero. */
  function Chopped(q: real): int {
    if q >= 0.0 then q.Floor else -((-q).Floor)
  }

  function Floored(a: real, b: real): real
    requires b != 0.0
  {
    a - Product(b, (a / b).Floor as real)
  }

  function Truncated(a: real, b: real): real
    requires b != 0.0
  {
    a - Product(b, Chopped(a / b) as real)
  }

  /** Python's remainder takes the sign of the divisor, SQL's that of the dividend; `sql` chooses. */
  function Calculated(op: Arithmetic, a: Value, b: Value, sql: bool): Outcome {
    if a.Num? && b.Num? then
      match op
      case Add => Val(Num(a.num + b.num))
      case Sub => Val(Num(a.num - b.num))
      case Mul => Val(Num(Product(a.num, b.num)))
      case Div => if b.num == 0.0 then ZeroDivision else Val(Num(Quotient(a.num, b.num)))
      case Mod =>
        if b.num == 0.0 then ZeroDivision
        else Val(Num(if sql then Truncated(a.num, b.num) else Floored(a.num, b.num)))
      case OtherArithmetic => TypeMismatch
    else TypeMismatch
  }

  datatype Chain = Going(left: Value) | Stopped(outcome: Outcome)

  function Py(e: Expr, row: Row): Outcome
    decreases e, 1, 0
  {
    match e
    case BoolOp(_, values) => PyValues(e, row, |values|)
    case Not(operand) =>
      (match Py(operand, row)
       case Val(Truth(b)) => Val(Truth(!b))
       case Val(_) => TypeMismatch
       case raised => raised)
    case Neg(operand) =>
      (match Py(operand, row)
       case Val(Num(x)) => Val(Num(-x))
       case Val(_) => TypeMismatch
       case raised => raised)
    case Compare(_, links) =>
      (match PyLinks(e, row, |links|)
       case Going(_) => Val(Truth(true))
       case Stopped(outcome) => outcome)
    case BinOp(op, left, right) =>
      (match Py(left, row)
       case Val(l) =>
         (match Py(right, row)
          case Val(r) => Calculated(op, l, r, false)
          case raised => raised)
       case raised => raised)
    case Name(field) => if field in row && row[field].Some? then Val(row[field].value) else TypeMismatch
    case Const(value) => Val(value)
    case Unsupported => TypeMismatch
  }

  /** After the first `n` operands. */
  function PyValues(e: Expr, row: Row, n: nat): Outcome
    requires e.BoolOp? && n <= |e.values|
    decreases e, 0, n
  {
    if n == 0 then Val(Truth(e.isAnd))
    else NextOperand(e.isAnd, PyValues(e, row, n - 1), Py(e.values[n - 1], row))
  }

  /** Evaluation goes on to the next operand only while nothing is decided or raised. */
  function NextOperand(isAnd: bool, before: Outcome, next: Outcome): Outcome {
    if before != Val(Truth(isAnd)) then before
    else
      match next
      case Val(Truth(b)) => Val(Truth(b))
      case Val(_) => TypeMismatch
      case raised => raised
  }

  /** After the first `n` links: the chain stops at the first one that fails or raises. */
  function PyLinks(e: Expr, row: Row, n: nat): Chain
    requires e.Compare? && n <= |e.links|
    decreases e, 0, n
  {
    if n == 0 then
      match Py(e.left, row)
      case Val(v) => Going(v)
      case raised => Stopped(raised)
    else
      match PyLinks(e, row, n - 1)
      case Stopped(outcome) => Stopped(outcome)
      case Going(left) =>
        match Py(e.links[n - 1].right, row)
        case Val(right) =>
          (match Compared(e.links[n - 1].op, left, right)
           case None => Stopped(TypeMismatch)
           case Some(holds) => if holds then Going(right) else Stopped(Val(Truth(false))))
        case raised => Stopped(raised)
  }

  /** One step of AND (or, for `isAnd` false, of OR) in three-valued logic. */
  function Connected(isAnd: bool, a: Option<Value>, b: Option<Value>): Option<Value> {
    if a == Some(Truth(!isAnd)) || b == Some(Truth(!isAnd)) then Some(Truth(!isAnd))
    else if a == Some(Truth(isAnd)) && b == Some(Truth(isAnd)) then Some(Truth(isAnd))
    else None
  }

  /** The value of an SQL expression; `None` is NULL. A division by zero gives NULL, or no row at all on a database
      that refuses it. */
  function Eval(s: Sql, row: Row): Option<Value>
    decreases s
  {
    match s
    case And(clauses) => EvalAll(true, clauses, row)
    case Or(clauses) => EvalAll(false, clauses, row)
    case Negation(operand) =>
      (match Eval(operand, row) case Some(Truth(b)) => Some(Truth(!b)) case _ => None)
    case Minus(operand) =>
      (match Eval(operand, row) case Some(Num(x)) => Some(Num(-x)) case _ => None)
    case Test(op, left, right) =>
      (match (Eval(left, row), Eval(right, row))
       case (Some(l), Some(r)) =>
         (match Compared(op, l, r) case Some(b) => Some(Truth(b)) case None => None)
       case _ => None)
    case Calc(op, left, right) =>
      (match (Eval(left, row), Eval(right, row))
       case (Some(l), Some(r)) =>
         (match Calculated(op, l, r, true) case Val(v) => Some(v) case _ => None)
       case _ => None)
    case Column(field) => if field in row then row[field] else None
    case Literal(value) => Some(value)
  }

  function EvalAll(isAnd: bool, clauses: seq<Sql>, row: Row): Option<Value>
    decreases clauses
  {
    if clauses == [] then Some(Truth(isAnd))
    else Connected(isAnd, EvalAll(isAnd, clauses[..|clauses| - 1], row), Eval(clauses[|clauses| - 1], row))
  }

  lemma EvalOneMore(isAnd: bool, clauses: seq<Sql>, s: Sql, row: Row)
    ensures EvalAll(isAnd, clauses + [s], row) == Connected(isAnd, EvalAll(isAnd, clauses, row), Eval(s, row))
  {
    assert (clauses + [s])[..|clauses|] == clauses;
  }

  // ---------------------------------------------------------------- what the two meanings share

  /** Equality is that of values of one kind, order that of numbers; the six operators are three and their opposites. */
  lemma ComparisonLaws(a: Value, b: Value)
    ensures var alike := (a.Num? && b.Num?) || (a.Text? && b.Text?) || (a.Truth? && b.Truth?);
            && Compared(Eq, a, b) == (if alike then Some(a == b) else None)
            && Compared(Ne, a, b) == (if alike then Some(a != b) else None)
    ensures a.Num? && b.Num? ==>
              && Compared(Lt, a, b) == Some(b.num - a.num > 0.0) && Compared(Gt, a, b) == Compared(Lt, b, a)
              && Compared(Le, a, b) == Some(!Compared(Gt, a, b).value) && Compared(Ge, a, b) == Some(!Compared(Lt, a, b).value)
    ensures !(a.Num? && b.Num?) ==> forall op :: op in {Lt, Le, Gt, Ge} ==> Compared(op, a, b) == None
    ensures Compared(OtherComparison, a, b) == None
  {
  }

  /** What the operators do to numbers. */
  function Result(op: Arithmetic, x: real, y: real): Outcome {
    Calculated(op, Num(x), Num(y), false)
  }

  /** Sums commute and keep zero, a difference undoes a sum, products commute, keep one and distribute, a quotient undoes
      a product, and only a zero divisor raises. */
  lemma ArithmeticLaws(x: real, y: real, z: real)
    ensures Result(Add, x, y) == Result(Add, y, x) && Result(Add, x, 0.0) == Val(Num(x))
    ensures Result(Add, x, y).Val? && Result(Sub, Result(Add, x, y).value.num, y) == Val(Num(x))
    ensures Result(Mul, x, y) == Result(Mul, y, x) && Result(Mul, x, 1.0) == Val(Num(x))
    ensures Result(Mul, x, y).Val? && Result(Mul, x, y + z) == Val(Num(Result(Mul, x, y).value.num + Result(Mul, x, z).value.num))
    ensures y != 0.0 ==> Result(Div, Result(Mul, x, y).value.num, y) == Val(Num(x))
    ensures forall op :: Result(op, x, y) == ZeroDivision <==> y == 0.0 && (op == Div || op == Mod)
  {
    assert Product(x, y + z) == Product(x, y) + Product(x, z) && Product(x, y) == Product(y, x) && Product(x, 1.0) == x;
    if y != 0.0 {
      ProductsAgree(y, Quotient(Product(x, y), y), x);
      assert Product(y, Quotient(Product(x, y), y)) == Product(x, y);
    }
  }

  /** Both remainders differ from the dividend by a whole multiple of the divisor and are smaller than it; Python's has
      the sign of the divisor, SQL's that of the dividend. */
  lemma RemainderLaws(a: real, b: real) returns (m: int, n: int)
    requires b != 0.0
    ensures Floored(a, b) == a - Product(b, m as real) && Truncated(a, b) == a - Product(b, n as real)
    ensures if b > 0.0 then 0.0 <= Floored(a, b) < b else b < Floored(a, b) <= 0.0
    ensures if b > 0.0 then -b < Truncated(a, b) < b else b < Truncated(a, b) < -b
    ensures (a >= 0.0 ==> Truncated(a, b) >= 0.0) && (a <= 0.0 ==> Truncated(a, b) <= 0.0)
  {
    var q := a / b;
    m, n := q.Floor, Chopped(q);
    assert a == Product(b, q);
    PartLeft(b, q, m);
    PartLeft(b, q, n);
    SignOfProduct(b, q);
    SignOfProduct(b, q - m as real);
    SignOfProduct(b, q - n as real);
  }

  lemma PartLeft(b: real, q: real, n: int)
    requires b != 0.0 && -1.0 < q - n as real < 1.0
    ensures Product(b, q) - Product(b, n as real) == Product(b, q - n as real)
    ensures if b > 0.0 then -b < Product(b, q - n as real) < b else b < Product(b, q - n as real) < -b
  {
    var x := q - n as real;
    ProductSplits(b, q, n as real);
    ProductSplits(b, 1.0, x);
    ProductSplits(b, x, -1.0);
    SignOfProduct(b, 1.0 - x);
    SignOfProduct(b, x - -1.0);
    assert Product(b, 1.0) == b && Product(b, -1.0) == -b;
  }

  lemma ProductSplits(b: real, x: real, y: real)
    ensures Product(b, x - y) == Product(b, x) - Product(b, y)
  {
  }

  lemma PositiveProduct(x: real, y: real)
    requires x > 0.0 && y >= 0.0
    ensures Product(x, y) > 0.0 <==> y > 0.0
    ensures Product(x, y) >= 0.0
  {
  }

  lemma SignOfProduct(b: real, x: real)
    requires b != 0.0
    ensures Product(b, x) > 0.0 <==> (if b > 0.0 then x > 0.0 else x < 0.0)
    ensures Product(b, x) < 0.0 <==> (if b > 0.0 then x < 0.0 else x > 0.0)
  {
    var c, y := if b > 0.0 then b else -b, if x > 0.0 then x else -x;
    PositiveProduct(c, y);
    assert Product(b, x) == if (b > 0.0) == (x > 0.0) then Product(c, y) else -Product(c, y);
  }

  /** The negated operands of an AND or OR. */
  function Negated(values: seq<Expr>): (r: seq<Expr>)
    ensures |r| == |values| && forall i :: 0 <= i < |r| ==> r[i] == Not(values[i])
  {
    seq(|values|, i requires 0 <= i < |values| => Not(values[i]))
  }

  /** De Morgan's law for Python, early exits and exceptions included: negating an AND is OR-ing the negations. */
  lemma {:induction false} DeMorgan(isAnd: bool, values: seq<Expr>, row: Row, n: nat)
    requires n <= |values|
    ensures var e, dual := BoolOp(isAnd, values), BoolOp(!isAnd, Negated(values));
            PyValues(dual, row, n) == match PyValues(e, row, n) case Val(Truth(b)) => Val(Truth(!b)) case other => other
    ensures PyValues(BoolOp(isAnd, values), row, n).Val? ==> PyValues(BoolOp(isAnd, values), row, n).value.Truth?
  {
    if n > 0 {
      DeMorgan(isAnd, values, row, n - 1);
    }
  }

  /** An AND is true exactly when all operands are; an OR false exactly when all are. */
  lemma {:induction false} AllOperandsHold(isAnd: bool, values: seq<Expr>, row: Row, n: nat)
    requires n <= |values|
    ensures PyValues(BoolOp(isAnd, values), row, n) == Val(Truth(isAnd)) <==>
              forall i :: 0 <= i < n ==> Py(values[i], row) == Val(Truth(isAnd))
  {
    if n > 0 {
      AllOperandsHold(isAnd, values, row, n - 1);
    }
  }

  /** The comparisons of a chain one by one, each operand but the first and last written twice. */
  function Pairwise(e: Expr): (r: seq<Expr>)
    requires e.Compare?
    ensures |r| == |e.links|
  {
    seq(|e.links|, i requires 0 <= i < |e.links| => Compare(if i == 0 then e.left else e.links[i - 1].right, [e.links[i]]))
  }

  /** A chained comparison means the conjunction of its comparisons, early exits and exceptions included. */
  lemma {:induction false} ChainIsConjunction(e: Expr, row: Row, n: nat)
    requires e.Compare? && 0 < n <= |e.links|
    ensures PyValues(BoolOp(true, Pairwise(e)), row, n) ==
              match PyLinks(e, row, n) case Going(_) => Val(Truth(true)) case Stopped(outcome) => outcome
    ensures PyLinks(e, row, n).Going? ==> Py(e.links[n - 1].right, row) == Val(PyLinks(e, row, n).left)
    ensures PyLinks(e, row, n).Stopped? ==> PyLinks(e, row, n).outcome != Val(Truth(true))
  {
    var all := BoolOp(true, Pairwise(e));
    var one := Pairwise(e)[n - 1];
    assert PyLinks(one, row, 0) == match Py(one.left, row) case Val(v) => Going(v) case raised => Stopped(raised);
    assert Py(one, row) == match PyLinks(one, row, 1) case Going(_) => Val(Truth(true)) case Stopped(outcome) => outcome;
    if n > 1 {
      ChainIsConjunction(e, row, n - 1);
    } else {
      assert PyValues(all, row, 0) == Val(Truth(true));
    }
  }

  // ---------------------------------------------------------------- preservation

  predicate WholeOrNotNegative(q: real) {
    q >= 0.0 || q.Floor as real == q
  }

  lemma ProductsAgree(b: real, x: real, y: real)
    requires b != 0.0
    ensures Product(b, x) == Product(b, y) <==> x == y
  {
    if b * x == b * y {
      assert b * (x - y) == 0.0;
    }
  }

  lemma WholePartsAgree(q: real)
    ensures q.Floor == Chopped(q) <==> WholeOrNotNegative(q)
  {
    if q < 0.0 {
      assert -q == (-q).Floor as real || (-q).Floor as real < -q;
    }
  }

  /** The remainders agree exactly when the quotient is not negative or there is no remainder. */
  lemma RemaindersAgree(a: real, b: real)
    requires b != 0.0
    ensures Floored(a, b) == Truncated(a, b) <==> WholeOrNotNegative(a / b)
  {
    var q := a / b;
    ProductsAgree(b, q.Floor as real, Chopped(q) as real);
    WholePartsAgree(q);
  }

  /** Every remainder in the expression has, on this row, a quotient on which Python and SQL agree. */
  predicate RemaindersAlike(e: Expr, row: Row) {
    match e
    case BoolOp(_, values) => forall i :: 0 <= i < |values| ==> RemaindersAlike(values[i], row)
    case Not(operand) => RemaindersAlike(operand, row)
    case Neg(operand) => RemaindersAlike(operand, row)
    case Compare(left, links) =>
      RemaindersAlike(left, row) && forall i :: 0 <= i < |links| ==> RemaindersAlike(links[i].right, row)
    case BinOp(op, left, right) =>
      && RemaindersAlike(left, row) && RemaindersAlike(right, row)
      && (op == Mod && Py(left, row).Val? && Py(right, row).Val? ==> QuotientAlike(Py(left, row).value, Py(right, row).value))
    case _ => true
  }

  predicate QuotientAlike(a: Value, b: Value) {
    a.Num? && b.Num? && b.num != 0.0 ==> WholeOrNotNegative(a.num / b.num)
  }

  lemma SameCalculation(op: Arithmetic, a: Value, b: Value)
    requires op == Mod ==> QuotientAlike(a, b)
    ensures Calculated(op, a, b, true) == Calculated(op, a, b, false)
  {
    if op == Mod && a.Num? && b.Num? && b.num != 0.0 {
      RemaindersAgree(a.num, b.num);
    }
  }

  /** `full` has a value where `row` has one, and some value where `row` has NULL. */
  predicate Fills(row: Row, full: Row) {
    forall f {:trigger f in row} :: f in row ==> f in full && full[f].Some? && (row[f].Some? ==> full[f] == row[f])
  }

  /** A known SQL value is what Python gives, unless Python raises. */
  predicate Agrees(sql: Option<Value>, py: Outcome) {
    sql.Some? && py.Val? ==> sql.value == py.value
  }

  /** Whatever values stand in for the NULLs. */
  lemma {:induction false} KnownValuesHold(e: Expr, columns: set<Field>, row: Row, full: Row)
    requires Compiled(e, columns).Ok? && Fills(row, full) && RemaindersAlike(e, full)
    ensures Agrees(Eval(Compiled(e, columns).value, row), Py(e, full))
    decreases e, 1, 0
  {
    match e
    case BoolOp(_, values) => KnownValuesOfOperands(e, columns, row, full, |values|);
    case Not(operand) => KnownValuesHold(operand, columns, row, full);
    case Neg(operand) => KnownValuesHold(operand, columns, row, full);
    case Compare(_, links) =>
      KnownValuesOfLinks(e, columns, row, full, |links|);
      SingleClause(e, columns, row);
    case BinOp(op, left, right) =>
      KnownValuesHold(left, columns, row, full);
      KnownValuesHold(right, columns, row, full);
      if Py(left, full).Val? && Py(right, full).Val? {
        SameCalculation(op, Py(left, full).value, Py(right, full).value);
      }
    case _ =>
  }

  lemma {:induction false} KnownValuesOfOperands(e: Expr, columns: set<Field>, row: Row, full: Row, n: nat)
    requires e.BoolOp? && n <= |e.values| && CompiledValues(e, columns, n).Ok? && Fills(row, full)
    requires forall i :: 0 <= i < n ==> RemaindersAlike(e.values[i], full)
    ensures Agrees(EvalAll(e.isAnd, CompiledValues(e, columns, n).value, row), PyValues(e, full, n))
    decreases e, 0, n
  {
    if n > 0 {
      KnownValuesOfOperands(e, columns, row, full, n - 1);
      KnownValuesHold(e.values[n - 1], columns, row, full);
      var clauses, s := CompiledValues(e, columns, n - 1).value, Compiled(e.values[n - 1], columns).value;
      EvalOneMore(e.isAnd, clauses, s, row);
      DecidedStays(e, full, n - 1);
      KnownOperandHolds(e.isAnd, EvalAll(e.isAnd, clauses, row), Eval(s, row), PyValues(e, full, n - 1), Py(e.values[n - 1], full));
    }
  }

  lemma KnownOperandHolds(isAnd: bool, sql: Option<Value>, sqlNext: Option<Value>, py: Outcome, pyNext: Outcome)
    requires Agrees(sql, py) && Agrees(sqlNext, pyNext) && (py.Val? ==> py.value.Truth?)
    ensures Agrees(Connected(isAnd, sql, sqlNext), NextOperand(isAnd, py, pyNext))
  {
  }

  /** Python's operands so far give a truth value, or it has raised. */
  lemma {:induction false} DecidedStays(e: Expr, full: Row, n: nat)
    requires e.BoolOp? && n <= |e.values|
    ensures PyValues(e, full, n).Val? ==> PyValues(e, full, n).value.Truth?
  {
    if n > 0 {
      DecidedStays(e, full, n - 1);
    }
  }

  ghost predicate ChainAgrees(clauses: Option<Value>, left: Option<Value>, chain: Chain) {
    match chain
    case Going(v) => clauses != Some(Truth(false)) && (left.Some? ==> left.value == v)
    case Stopped(Val(v)) => v == Truth(false) && clauses != Some(Truth(true))
    case Stopped(_) => true
  }

  lemma {:induction false} KnownValuesOfLinks(e: Expr, columns: set<Field>, row: Row, full: Row, n: nat)
    requires e.Compare? && n <= |e.links| && CompiledLinks(e, columns, n).Ok? && Fills(row, full)
    requires RemaindersAlike(e.left, full) && forall i :: 0 <= i < n ==> RemaindersAlike(e.links[i].right, full)
    ensures var (clauses, left) := CompiledLinks(e, columns, n).value;
            ChainAgrees(EvalAll(true, clauses, row), Eval(left, row), PyLinks(e, full, n))
    decreases e, 0, n
  {
    if n == 0 {
      KnownValuesHold(e.left, columns, row, full);
    } else {
      var (clauses, left) := CompiledLinks(e, columns, n - 1).value;
      var right := Compiled(e.links[n - 1].right, columns).value;
      KnownValuesOfLinks(e, columns, row, full, n - 1);
      KnownValuesHold(e.links[n - 1].right, columns, row, full);
      EvalOneMore(true, clauses, Test(e.links[n - 1].op, left, right), row);
    }
  }

  /** A comparison of two operands is not wrapped, and means the same wrapped. */
  lemma SingleClause(e: Expr, columns: set<Field>, row: Row)
    requires e.Compare? && Compiled(e, columns).Ok?
    ensures Eval(Compiled(e, columns).value, row) ==
              EvalAll(true, CompiledLinks(e, columns, |e.links|).value.0, row)
  {
    var n := |e.links|;
    if n == 1 {
      var (clauses, left) := CompiledLinks(e, columns, 0).value;
      var right := Compiled(e.links[0].right, columns).value;
      EvalOneMore(true, [], Test(e.links[0].op, left, right), row);
      assert [] + [Test(e.links[0].op, left, right)] == [Test(e.links[0].op, left, right)];
    }
  }

  predicate NoNulls(row: Row) {
    forall f {:trigger f in row} :: f in row ==> row[f].Some?
  }

  /** On a row without NULLs the clause has every value Python gives. */
  lemma {:induction false} ValuesAreKnown(e: Expr, columns: set<Field>, row: Row)
    requires Compiled(e, columns).Ok? && NoNulls(row) && RemaindersAlike(e, row) && Py(e, row).Val?
    ensures Eval(Compiled(e, columns).value, row) == Some(Py(e, row).value)
    decreases e, 1, 0
  {
    match e
    case BoolOp(_, values) => ValuesOfOperandsAreKnown(e, columns, row, |values|);
    case Not(operand) => ValuesAreKnown(operand, columns, row);
    case Neg(operand) => ValuesAreKnown(operand, columns, row);
    case Compare(_, links) =>
      ValuesOfLinksAreKnown(e, columns, row, |links|);
      SingleClause(e, columns, row);
    case BinOp(op, left, right) =>
      ValuesAreKnown(left, columns, row);
      ValuesAreKnown(right, columns, row);
      SameCalculation(op, Py(left, row).value, Py(right, row).value);
    case _ =>
  }

  lemma {:induction false} ValuesOfOperandsAreKnown(e: Expr, columns: set<Field>, row: Row, n: nat)
    requires e.BoolOp? && n <= |e.values| && CompiledValues(e, columns, n).Ok? && NoNulls(row)
    requires forall i :: 0 <= i < n ==> RemaindersAlike(e.values[i], row)
    ensures PyValues(e, row, n).Val? ==>
              PyValues(e, row, n).value.Truth? &&
              EvalAll(e.isAnd, CompiledValues(e, columns, n).value, row) == Some(PyValues(e, row, n).value)
    decreases e, 0, n
  {
    if n > 0 {
      ValuesOfOperandsAreKnown(e, columns, row, n - 1);
      var clauses, s := CompiledValues(e, columns, n - 1).value, Compiled(e.values[n - 1], columns).value;
      EvalOneMore(e.isAnd, clauses, s, row);
      if Py(e.values[n - 1], row).Val? {
        ValuesAreKnown(e.values[n - 1], columns, row);
      }
      OperandIsKnown(e.isAnd, EvalAll(e.isAnd, clauses, row), Eval(s, row), PyValues(e, row, n - 1), Py(e.values[n - 1], row));
    }
  }

  /** SQL's connective follows Python's, operand by operand. */
  lemma OperandIsKnown(isAnd: bool, sql: Option<Value>, sqlNext: Option<Value>, py: Outcome, pyNext: Outcome)
    requires py.Val? ==> py.value.Truth? && sql == Some(py.value)
    requires pyNext.Val? ==> sqlNext == Some(pyNext.value)
    ensures var after := NextOperand(isAnd, py, pyNext);
            after.Val? ==> after.value.Truth? && Connected(isAnd, sql, sqlNext) == Some(after.value)
  {
  }

  lemma {:induction false} ValuesOfLinksAreKnown(e: Expr, columns: set<Field>, row: Row, n: nat)
    requires e.Compare? && n <= |e.links| && CompiledLinks(e, columns, n).Ok? && NoNulls(row)
    requires RemaindersAlike(e.left, row) && forall i :: 0 <= i < n ==> RemaindersAlike(e.links[i].right, row)
    ensures var (clauses, left) := CompiledLinks(e, columns, n).value;
            match PyLinks(e, row, n)
            case Going(v) => EvalAll(true, clauses, row) == Some(Truth(true)) && Eval(left, row) == Some(v)
            case Stopped(Val(v)) => v == Truth(false) && EvalAll(true, clauses, row) == Some(Truth(false))
            case Stopped(_) => true
    decreases e, 0, n
  {
    if n == 0 {
      if Py(e.left, row).Val? {
        ValuesAreKnown(e.left, columns, row);
      }
    } else {
      var (clauses, left) := CompiledLinks(e, columns, n - 1).value;
      var right := Compiled(e.links[n - 1].right, columns).value;
      ValuesOfLinksAreKnown(e, columns, row, n - 1);
      if Py(e.links[n - 1].right, row).Val? {
        ValuesAreKnown(e.links[n - 1].right, columns, row);
      }
      EvalOneMore(true, clauses, Test(e.links[n - 1].op, left, right), row);
    }
  }

  // ---------------------------------------------------------------- types

  datatype Type = TNum | TText | TTruth

  function TypeOf(e: Expr, schema: map<Field, Type>): Option<Type> {
    match e
    case BoolOp(_, values) =>
      if forall i :: 0 <= i < |values| ==> TypeOf(values[i], schema) == Some(TTruth) then Some(TTruth) else None
    case Not(operand) => if TypeOf(operand, schema) == Some(TTruth) then Some(TTruth) else None
    case Neg(operand) => if TypeOf(operand, schema) == Some(TNum) then Some(TNum) else None
    case Compare(left, links) =>
      var t := TypeOf(left, schema);
      if t.Some? && forall i :: 0 <= i < |links| ==> TypeOf(links[i].right, schema) == t && Comparable(links[i].op, t.value)
      then Some(TTruth) else None
    case BinOp(op, left, right) =>
      if op != OtherArithmetic && TypeOf(left, schema) == Some(TNum) && TypeOf(right, schema) == Some(TNum) then Some(TNum) else None
    case Name(field) => if field in schema then Some(schema[field]) else None
    case Const(value) => Some(ValueType(value))
    case Unsupported => None
  }

  predicate Comparable(op: Comparison, t: Type) {
    op == Eq || op == Ne || (t == TNum && op != OtherComparison)
  }

  function ValueType(v: Value): Type {
    match v case Num(_) => TNum case Text(_) => TText case Truth(_) => TTruth
  }

  predicate FitsSchema(row: Row, schema: map<Field, Type>) {
    forall f {:trigger f in schema} :: f in schema ==> f in row && (row[f].Some? ==> ValueType(row[f].value) == schema[f])
  }

  predicate HasType(o: Outcome, t: Type) {
    o == ZeroDivision || (o.Val? && ValueType(o.value) == t)
  }

  /** A well-typed expression raises nothing but a division by zero. */
  lemma {:induction false} TypesHold(e: Expr, schema: map<Field, Type>, row: Row)
    requires TypeOf(e, schema).Some? && FitsSchema(row, schema) && NoNulls(row)
    ensures HasType(Py(e, row), TypeOf(e, schema).value)
    decreases e, 1, 0
  {
    match e
    case BoolOp(_, values) => TypesOfOperands(e, schema, row, |values|);
    case Not(operand) => TypesHold(operand, schema, row);
    case Neg(operand) => TypesHold(operand, schema, row);
    case Compare(_, links) => TypesOfLinks(e, schema, row, |links|);
    case BinOp(_, left, right) =>
      TypesHold(left, schema, row);
      TypesHold(right, schema, row);
    case _ =>
  }

  lemma {:induction false} TypesOfOperands(e: Expr, schema: map<Field, Type>, row: Row, n: nat)
    requires e.BoolOp? && n <= |e.values| && TypeOf(e, schema).Some? && FitsSchema(row, schema) && NoNulls(row)
    ensures HasType(PyValues(e, row, n), TTruth)
    decreases e, 0, n
  {
    if n > 0 {
      TypesOfOperands(e, schema, row, n - 1);
      TypesHold(e.values[n - 1], schema, row);
    }
  }

  lemma {:induction false} TypesOfLinks(e: Expr, schema: map<Field, Type>, row: Row, n: nat)
    requires e.Compare? && n <= |e.links| && TypeOf(e, schema).Some? && FitsSchema(row, schema) && NoNulls(row)
    ensures match PyLinks(e, row, n)
            case Going(v) => ValueType(v) == TypeOf(e.left, schema).value
            case Stopped(o) => HasType(o, TTruth)
    decreases e, 0, n
  {
    if n > 0 {
      TypesOfLinks(e, schema, row, n - 1);
      TypesHold(e.links[n - 1].right, schema, row);
    } else {
      TypesHold(e.left, schema, row);
    }
  }

  // ---------------------------------------------------------------- what a rule's query selects

  /** The query keeps the rows on which the negated clause is true. */
  predicate Selected(e: Expr, columns: set<Field>, row: Row)
    requires Compiled(e, columns).Ok?
  {
    Eval(Negation(Compiled(e, columns).value), row) == Some(Truth(true))
  }

  /** Without NULLs a well-typed expression and its clause agree wherever Python divides by no zero, so the rows
      selected are exactly those on which the expression is false. */
  lemma SelectsTheFalse(e: Expr, columns: set<Field>, schema: map<Field, Type>, row: Row)
    requires Compiled(e, columns).Ok? && RemaindersAlike(e, row) && TypeOf(e, schema) == Some(TTruth)
    requires FitsSchema(row, schema) && NoNulls(row)
    ensures Py(e, row) != ZeroDivision ==>
              Py(e, row).Val? && Eval(Compiled(e, columns).value, row) == Some(Py(e, row).value) &&
              (Selected(e, columns, row) <==> Py(e, row) == Val(Truth(false)))
  {
    TypesHold(e, schema, row);
    if Py(e, row) != ZeroDivision {
      ValuesAreKnown(e, columns, row);
    }
  }

  /** With NULLs, a row is selected only when the expression is false whatever the missing values are, unless it
      divides by zero for them. */
  lemma SelectedMeansFalseForAll(e: Expr, columns: set<Field>, schema: map<Field, Type>, row: Row, full: Row)
    requires Compiled(e, columns).Ok? && RemaindersAlike(e, full) && TypeOf(e, schema) == Some(TTruth)
    requires Fills(row, full) && FitsSchema(full, schema) && NoNulls(full)
    ensures Selected(e, columns, row) ==> Py(e, full) == Val(Truth(false)) || Py(e, full) == ZeroDivision
  {
    TypesHold(e, schema, full);
    KnownValuesHold(e, columns, row, full);
  }

  /** So a rule with a remainder can select a row its expression holds on. */
  lemma RemainderCanMislead(field: Field)
    ensures var e := Compare(BinOp(Mod, Name(field), Const(Num(2.0))), [Link(Eq, Const(Num(1.0)))]);
            var row: Row := map[field := Some(Num(-1.0))];
            Compiled(e, {field}).Ok? && Selected(e, {field}, row) && Py(e, row) == Val(Truth(true))
  {
    var e := Compare(BinOp(Mod, Name(field), Const(Num(2.0))), [Link(Eq, Const(Num(1.0)))]);
    var row: Row := map[field := Some(Num(-1.0))];
    assert -1.0 / 2.0 == -0.5 && (-0.5).Floor == -1 && (0.5).Floor == 0;
    assert Floored(-1.0, 2.0) == 1.0 && Truncated(-1.0, 2.0) == -1.0;
    var left, right := Calc(Mod, Column(field), Literal(Num(2.0))), Literal(Num(1.0));
    assert Compiled(e.left, {field}) == Ok(left) && CompiledLinks(e, {field}, 0) == Ok(([], left));
    var clause := Test(Eq, left, right);
    assert e.links[0] == Link(Eq, Const(Num(1.0)));
    assert CompiledLinks(e, {field}, 1) == Ok(([] + [clause], right));
    assert Compiled(e, {field}) == Ok(clause);
    assert Eval(left, row) == Some(Num(-1.0)) && Eval(clause, row) == Some(Truth(false));
    assert Py(e.left, row) == Val(Num(1.0)) && PyLinks(e, row, 0) == Going(Num(1.0));
    assert PyLinks(e, row, 1) == Going(Num(1.0));
  }
}
