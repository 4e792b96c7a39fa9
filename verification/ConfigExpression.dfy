/** Integer expressions in configuration values: infix text is turned into a postfix sequence with an
    operator stack, and that is evaluated on a number stack. None stands for whatever the program does
    not define: the top of an empty stack, a division by zero, or a value outside int. */
module ConfigExpression {
  import opened Options

  const INT_MIN: int := -0x8000_0000
  const INT_MAX: int := 0x7fff_ffff

  predicate IsDigit(c: char) { '0' <= c <= '9' }

  function GetPriority(c: char): int
  {
    if c == '+' || c == '-' then 1 else if c == '*' || c == '/' then 2 else -1
  }

  predicate IsOperator(s: string)
    requires s != ""
  {
    !IsDigit(s[0])
  }

  /** Division that rounds towards zero. */
  function Quotient(l: int, r: int): int
    requires r != 0
  {
    if (l >= 0) == (r > 0) then Abs(l) / Abs(r) else -(Abs(l) / Abs(r))
  }

  function Abs(x: int): int { if x < 0 then -x else x }

  function InInt(x: int): Option<int>
  {
    if INT_MIN <= x <= INT_MAX then Some(x) else None
  }

  function Calculate(l: int, r: int, op: string): Option<int>
    requires op != ""
  {
    if op[0] == '+' then InInt(l + r)
    else if op[0] == '-' then InInt(l - r)
    else if op[0] == '*' then InInt(l * r)
    else if op[0] == '/' then if r == 0 then None else InInt(Quotient(l, r))
    else Some(0)
  }

  /** The number that a run of digits writes. */
  function DigitsValue(ds: string): nat
    requires forall i | 0 <= i < |ds| :: IsDigit(ds[i])
  {
    if ds == "" then 0 else
      assert IsDigit(ds[|ds| - 1]);
      DigitsValue(ds[..|ds| - 1]) * 10 + (ds[|ds| - 1] as int - '0' as int)
  }

  // ----- tokens

  datatype Token = Num(digits: string) | Other(c: char)

  /** The end of the run of digits that starts at i. */
  function DigitsEnd(s: string, i: nat): (j: nat)
    requires i <= |s|
    ensures i <= j <= |s| && (forall k | i <= k < j :: IsDigit(s[k])) && (j < |s| ==> !IsDigit(s[j]))
    decreases |s| - i
  {
    if i < |s| && IsDigit(s[i]) then DigitsEnd(s, i + 1) else i
  }

  /** The tokens of the text from i on: maximal runs of digits, and every other character but spaces. */
  function Lex(s: string, i: nat): seq<Token>
    requires i <= |s|
    decreases |s| - i
  {
    if i == |s| then []
    else if s[i] == ' ' then Lex(s, i + 1)
    else if IsDigit(s[i]) then
      var j := DigitsEnd(s, i + 1);
      [Num(s[i..j])] + Lex(s, j)
    else [Other(s[i])] + Lex(s, i + 1)
  }

  // ----- from infix to postfix

  /** The operator stack, top last, and the postfix sequence so far. */
  datatype Shunt = Shunt(ops: seq<char>, out: seq<string>)

  /** Moves operators to the output while the top binds at least as tightly as priority p. */
  function PopTighter(st: Shunt, p: int): (r: Shunt)
    ensures |r.ops| <= |st.ops|
    decreases |st.ops|
  {
    if st.ops != [] && GetPriority(st.ops[|st.ops| - 1]) >= p then
      PopTighter(Shunt(st.ops[..|st.ops| - 1], st.out + [[st.ops[|st.ops| - 1]]]), p)
    else st
  }

  /** Moves operators to the output down to the last open parenthesis, which is dropped. */
  function PopToOpen(st: Shunt): Option<Shunt>
    decreases |st.ops|
  {
    if st.ops == [] then None
    else if st.ops[|st.ops| - 1] == '(' then Some(Shunt(st.ops[..|st.ops| - 1], st.out))
    else PopToOpen(Shunt(st.ops[..|st.ops| - 1], st.out + [[st.ops[|st.ops| - 1]]]))
  }

  function PopAll(st: Shunt): seq<string>
    decreases |st.ops|
  {
    if st.ops == [] then st.out
    else PopAll(Shunt(st.ops[..|st.ops| - 1], st.out + [[st.ops[|st.ops| - 1]]]))
  }

  function Feed(st: Shunt, t: Token): Option<Shunt>
  {
    match t
    case Num(ds) => Some(st.(out := st.out + [ds]))
    case Other(c) =>
      if st.ops == [] || c == '(' then Some(st.(ops := st.ops + [c]))
      else if c != ')' then
        var r := PopTighter(st, GetPriority(c));
        Some(r.(ops := r.ops + [c]))
      else PopToOpen(st)
  }

  function FeedAll(st: Shunt, ts: seq<Token>): Option<Shunt>
    decreases |ts|
  {
    if ts == [] then Some(st)
    else match Feed(st, ts[0])
      case None => None
      case Some(r) => FeedAll(r, ts[1..])
  }

  // ----- evaluation

  function Push(nums: seq<int>, s: string): Option<seq<int>>
    requires s != "" && (IsOperator(s) || forall i | 0 <= i < |s| :: IsDigit(s[i]))
  {
    if IsOperator(s) then
      if |nums| < 2 then None
      else match Calculate(nums[|nums| - 2], nums[|nums| - 1], s)
        case None => None
        case Some(v) => Some(nums[..|nums| - 2] + [v])
    else match InInt(DigitsValue(s))
      case None => None
      case Some(v) => Some(nums + [v])
  }

  /** Every element of a postfix sequence is a number or starts with something else than a digit. */
  predicate Readable(out: seq<string>)
  {
    forall k | 0 <= k < |out| ::
      out[k] != "" && (IsOperator(out[k]) || forall i | 0 <= i < |out[k]| :: IsDigit(out[k][i]))
  }

  function PushAll(nums: seq<int>, out: seq<string>): Option<seq<int>>
    requires Readable(out)
    decreases |out|
  {
    if out == [] then Some(nums)
    else match Push(nums, out[0])
      case None => None
      case Some(r) => PushAll(r, out[1..])
  }

  // ----- parse trees

  /** A parse tree over + - * / with numbers and parenthesised subtrees at the leaves. */
  datatype Expr = Number(digits: string) | Parens(e: Expr) | Binary(op: char, l: Expr, r: Expr)

  /** How tightly the tree's outermost operator binds; numbers and parentheses bind tightest. */
  function Level(e: Expr): int
  {
    if e.Binary? then GetPriority(e.op) else 3
  }

  /** The tree groups as precedence and left associativity demand. */
  predicate IsParse(e: Expr)
  {
    match e
    case Number(ds) => IsNumber(ds)
    case Parens(d) => IsParse(d)
    case Binary(op, l, r) =>
      GetPriority(op) >= 1 && IsParse(l) && IsParse(r) && Level(l) >= GetPriority(op) && Level(r) > GetPriority(op)
  }

  /** The tokens that the tree is the parse of. */
  function Tokens(e: Expr): seq<Token>
  {
    match e
    case Number(ds) => [Num(ds)]
    case Parens(d) => [Other('(')] + Tokens(d) + [Other(')')]
    case Binary(op, l, r) => Tokens(l) + [Other(op)] + Tokens(r)
  }

  /** The tree's numbers and operators, children before their operator. */
  function Postorder(e: Expr): seq<string>
  {
    match e
    case Number(ds) => [ds]
    case Parens(d) => Postorder(d)
    case Binary(op, l, r) => Postorder(l) + Postorder(r) + [[op]]
  }

  /** The tree's value, if every literal and every intermediate result is an int and no divisor is zero. */
  function Eval(e: Expr): Option<int>
    requires IsParse(e)
  {
    match e
    case Number(ds) => InInt(DigitsValue(ds))
    case Parens(d) => Eval(d)
    case Binary(op, l, r) =>
      match Eval(l)
      case None => None
      case Some(x) =>
        match Eval(r)
        case None => None
        case Some(y) => Calculate(x, y, [op])
  }

  // ----- the operator stack

  /** The operators still on the stack after the tree's tokens, and what has been moved out by then. */
  function Spine(e: Expr): seq<char>
  {
    if e.Binary? then [e.op] + Spine(e.r) else []
  }

  function Moved(e: Expr): seq<string>
  {
    if e.Binary? then Postorder(e.l) + Moved(e.r) else Postorder(e)
  }

  function Singles(cs: seq<char>): seq<string>
  {
    if cs == [] then [] else [[cs[|cs| - 1]]] + Singles(cs[..|cs| - 1])
  }

  /** Moving the spine out after the rest completes the postorder. */
  lemma {:induction false} MovedSpine(e: Expr)
    ensures Moved(e) + Singles(Spine(e)) == Postorder(e)
  {
    if e.Binary? {
      MovedSpine(e.r);
      SinglesCons(e.op, Spine(e.r));
    }
  }

  lemma {:induction false} SinglesCons(c: char, cs: seq<char>)
    ensures Singles([c] + cs) == Singles(cs) + [[c]]
    decreases |cs|
  {
    if cs != [] {
      SinglesCons(c, cs[..|cs| - 1]);
      assert ([c] + cs)[..|cs|] == [c] + cs[..|cs| - 1];
    } else {
      assert [c] + cs == [c];
      assert Singles([c]) == [[c]] + Singles([c][..0]);
    }
  }

  /** Every operator of the spine binds at least as tightly as the tree. */
  lemma {:induction false} SpineLevel(e: Expr, i: nat)
    requires IsParse(e) && i < |Spine(e)|
    ensures GetPriority(Spine(e)[i]) >= Level(e) && GetPriority(Spine(e)[i]) >= 1
  {
    if i > 0 {
      SpineLevel(e.r, i - 1);
    }
  }

  /** Nothing below the tree's operators on the stack is moved when they are. */
  predicate Looser(ops: seq<char>, p: int) { ops == [] || GetPriority(ops[|ops| - 1]) < p }

  lemma {:induction false} PopSpine(ops: seq<char>, sp: seq<char>, out: seq<string>, p: int)
    requires Looser(ops, p) && forall i | 0 <= i < |sp| :: GetPriority(sp[i]) >= p
    ensures PopTighter(Shunt(ops + sp, out), p) == Shunt(ops, out + Singles(sp))
    decreases |sp|
  {
    if sp == [] {
      assert ops + sp == ops && out + Singles(sp) == out;
    } else {
      var q, c := sp[..|sp| - 1], sp[|sp| - 1];
      assert (ops + sp)[..|ops + sp| - 1] == ops + q;
      PopSpine(ops, q, out + [[c]], p);
      assert out + [[c]] + Singles(q) == out + Singles(sp);
    }
  }

  lemma {:induction false} PopParen(ops: seq<char>, sp: seq<char>, out: seq<string>)
    requires forall i | 0 <= i < |sp| :: sp[i] != '('
    ensures PopToOpen(Shunt(ops + ['('] + sp, out)) == Some(Shunt(ops, out + Singles(sp)))
    decreases |sp|
  {
    var all := ops + ['('] + sp;
    if sp == [] {
      assert all == ops + ['('] && all[..|all| - 1] == ops && out + Singles(sp) == out;
    } else {
      var q, c := sp[..|sp| - 1], sp[|sp| - 1];
      assert all[..|all| - 1] == ops + ['('] + q;
      PopParen(ops, q, out + [[c]]);
      assert out + [[c]] + Singles(q) == out + Singles(sp);
    }
  }

  lemma {:induction false} PopAllSingles(ops: seq<char>, out: seq<string>)
    ensures PopAll(Shunt(ops, out)) == out + Singles(ops)
    decreases |ops|
  {
    if ops == [] {
      assert out + Singles(ops) == out;
    } else {
      hide Singles;
      var q, c := ops[..|ops| - 1], ops[|ops| - 1];
      PopAllSingles(q, out + [[c]]);
      SinglesLast(ops, out);
    }
  }

  lemma SinglesLast(ops: seq<char>, out: seq<string>)
    requires ops != []
    ensures out + [[ops[|ops| - 1]]] + Singles(ops[..|ops| - 1]) == out + Singles(ops)
  {
  }

  lemma {:induction false} FeedAllJoin(st: Shunt, ts: seq<Token>, us: seq<Token>)
    ensures FeedAll(st, ts + us) == match FeedAll(st, ts) case None => None case Some(r) => FeedAll(r, us)
    decreases |ts|
  {
    if ts == [] {
      assert ts + us == us;
    } else {
      assert (ts + us)[0] == ts[0] && (ts + us)[1..] == ts[1..] + us;
      match Feed(st, ts[0])
      case None =>
      case Some(r) => FeedAllJoin(r, ts[1..], us);
    }
  }

  lemma FeedOne(st: Shunt, t: Token)
    ensures FeedAll(st, [t]) == Feed(st, t)
  {
    assert [t][1..] == [];
  }

  /** Reading the tokens of a tree above a looser stack leaves its spine on the stack and moves out the rest. */
  lemma {:induction false} FeedTree(e: Expr, ops: seq<char>, out: seq<string>)
    requires IsParse(e) && Looser(ops, Level(e))
    ensures FeedAll(Shunt(ops, out), Tokens(e)) == Some(Shunt(ops + Spine(e), out + Moved(e)))
    decreases e, 1
  {
    match e
    case Number(ds) =>
      FeedOne(Shunt(ops, out), Num(ds));
      assert ops + [] == ops;
    case Parens(d) => FeedParens(d, ops, out);
    case Binary(op, l, r) => FeedBinary(op, l, r, ops, out);
  }

  lemma {:induction false} FeedParens(d: Expr, ops: seq<char>, out: seq<string>)
    requires IsParse(d)
    ensures FeedAll(Shunt(ops, out), Tokens(Parens(d))) == Some(Shunt(ops + [], out + Postorder(d)))
    decreases Parens(d), 0
  {
    hide FeedAll, Spine, Moved, Postorder;
    var open, close := [Other('(')], [Other(')')];
    FeedOne(Shunt(ops, out), Other('('));
    FeedTree(d, ops + ['('], out);
    FeedClose(d, ops, out);
    FeedAllJoin(Shunt(ops, out), open, Tokens(d) + close);
    FeedAllJoin(Shunt(ops + ['('], out), Tokens(d), close);
    assert open + (Tokens(d) + close) == Tokens(Parens(d));
    assert ops + [] == ops;
  }

  /** A closing parenthesis moves out what its opening one holds back. */
  lemma FeedClose(d: Expr, ops: seq<char>, out: seq<string>)
    requires IsParse(d)
    ensures FeedAll(Shunt(ops + ['('] + Spine(d), out + Moved(d)), [Other(')')])
            == Some(Shunt(ops, out + Postorder(d)))
  {
    hide Postorder, Moved;
    FeedOne(Shunt(ops + ['('] + Spine(d), out + Moved(d)), Other(')'));
    forall i | 0 <= i < |Spine(d)| ensures Spine(d)[i] != '(' {
      SpineLevel(d, i);
    }
    PopParen(ops, Spine(d), out + Moved(d));
    MovedSpine(d);
    assert out + Moved(d) + Singles(Spine(d)) == out + Postorder(d);
  }

  lemma {:induction false} FeedBinary(op: char, l: Expr, r: Expr, ops: seq<char>, out: seq<string>)
    requires IsParse(Binary(op, l, r)) && Looser(ops, GetPriority(op))
    ensures FeedAll(Shunt(ops, out), Tokens(Binary(op, l, r))) ==
              Some(Shunt(ops + ([op] + Spine(r)), out + (Postorder(l) + Moved(r))))
    decreases Binary(op, l, r), 0
  {
    hide Feed, FeedAll, Spine, Moved, Postorder, Looser;
    BinaryLooser(op, l, r, ops);
    FeedTree(l, ops, out);
    FeedOperator(op, l, ops, out);
    FeedTree(r, ops + [op], out + Postorder(l));
    var st, tl, tr := Shunt(ops, out), Tokens(l), Tokens(r);
    FeedAllJoin(st, tl, [Other(op)] + tr);
    FeedAllJoin(Shunt(ops + Spine(l), out + Moved(l)), [Other(op)], tr);
    Associates(tl, [Other(op)], tr);
    Associates(ops, [op], Spine(r));
    Associates(out, Postorder(l), Moved(r));
  }

  lemma BinaryLooser(op: char, l: Expr, r: Expr, ops: seq<char>)
    requires IsParse(Binary(op, l, r)) && Looser(ops, GetPriority(op))
    ensures Looser(ops, Level(l)) && Looser(ops + [op], Level(r))
  {
  }

  lemma Associates<T>(a: seq<T>, b: seq<T>, c: seq<T>)
    ensures a + b + c == a + (b + c)
  {
  }

  /** An operator that binds no tighter than the tree before it moves that tree's spine out. */
  lemma FeedOperator(op: char, l: Expr, ops: seq<char>, out: seq<string>)
    requires IsParse(l) && GetPriority(op) >= 1 && Level(l) >= GetPriority(op) && Looser(ops, GetPriority(op))
    ensures FeedAll(Shunt(ops + Spine(l), out + Moved(l)), [Other(op)]) == Some(Shunt(ops + [op], out + Postorder(l)))
  {
    hide Spine, Moved, Postorder;
    var mid := Shunt(ops + Spine(l), out + Moved(l));
    forall i | 0 <= i < |Spine(l)| ensures GetPriority(Spine(l)[i]) >= GetPriority(op) {
      SpineLevel(l, i);
    }
    PopSpine(ops, Spine(l), out + Moved(l), GetPriority(op));
    MovedSpine(l);
    FeedOne(mid, Other(op));
    assert out + Moved(l) + Singles(Spine(l)) == out + Postorder(l);
    if ops + Spine(l) == [] {
      assert Spine(l) == [] && ops == [];
    }
  }

  /** The postfix sequence of a text whose tokens parse as e is the postorder of e. */
  lemma SuffixIsPostorder(e: Expr)
    requires IsParse(e)
    ensures FeedAll(Shunt([], []), Tokens(e)).Some?
    ensures PopAll(FeedAll(Shunt([], []), Tokens(e)).value) == Postorder(e)
  {
    FeedTree(e, [], []);
    PopAllSingles([] + Spine(e), [] + Moved(e));
    MovedSpine(e);
    assert [] + Spine(e) == Spine(e) && [] + Moved(e) == Moved(e);
  }

  // ----- the number stack

  lemma {:induction false} PostorderReadable(e: Expr)
    requires IsParse(e)
    ensures Readable(Postorder(e))
  {
    match e
    case Number(ds) =>
    case Parens(d) => PostorderReadable(d);
    case Binary(op, l, r) =>
      PostorderReadable(l);
      PostorderReadable(r);
  }

  lemma {:induction false} PushAllJoin(nums: seq<int>, a: seq<string>, b: seq<string>)
    requires Readable(a) && Readable(b)
    ensures Readable(a + b)
    ensures PushAll(nums, a + b) == match PushAll(nums, a) case None => None case Some(r) => PushAll(r, b)
    decreases |a|
  {
    if a == [] {
      assert a + b == b;
    } else {
      assert (a + b)[0] == a[0] && (a + b)[1..] == a[1..] + b;
      match Push(nums, a[0])
      case None =>
      case Some(r) => PushAllJoin(r, a[1..], b);
    }
  }

  lemma PushOne(nums: seq<int>, s: string)
    requires s != "" && (IsOperator(s) || forall i | 0 <= i < |s| :: IsDigit(s[i]))
    ensures Readable([s]) && PushAll(nums, [s]) == Push(nums, s)
  {
    assert [s][1..] == [];
  }

  /** Running the postorder of a tree pushes the tree's value, or fails exactly where the tree has none. */
  lemma {:induction false} PushTree(e: Expr, nums: seq<int>)
    requires IsParse(e) && Readable(Postorder(e))
    ensures PushAll(nums, Postorder(e)) == match Eval(e) case None => None case Some(v) => Some(nums + [v])
  {
    match e
    case Number(ds) => PushOne(nums, ds);
    case Parens(d) => PushTree(d, nums);
    case Binary(op, l, r) =>
      PostorderReadable(l);
      PostorderReadable(r);
      assert Readable([[op]]);
      PushTree(l, nums);
      PushAllJoin(nums, Postorder(l), Postorder(r));
      PushAllJoin(nums, Postorder(l) + Postorder(r), [[op]]);
      if Eval(l).Some? {
        var x := Eval(l).value;
        PushTree(r, nums + [x]);
        if Eval(r).Some? {
          var y := Eval(r).value;
          PushOne(nums + [x] + [y], [op]);
          assert (nums + [x] + [y])[..|nums|] == nums;
        }
      }
  }

  // ----- texts

  /** The value of a text. */
  function Evaluate(s: string): Option<int>
  {
    LexReadable(s, 0);
    match FeedAll(Shunt([], []), Lex(s, 0))
    case None => None
    case Some(st) =>
      FeedReadable(Shunt([], []), Lex(s, 0));
      PopAllReadable(st);
      match PushAll([], PopAll(st))
      case None => None
      case Some(nums) => if nums == [] then None else Some(nums[|nums| - 1])
  }

  /** Numbers are runs of digits, and no other token starts with a digit. */
  predicate TokensOk(ts: seq<Token>)
  {
    forall k | 0 <= k < |ts| ::
      match ts[k]
      case Num(ds) => ds != "" && forall i | 0 <= i < |ds| :: IsDigit(ds[i])
      case Other(c) => !IsDigit(c)
  }

  lemma {:induction false} LexReadable(s: string, i: nat)
    requires i <= |s|
    ensures TokensOk(Lex(s, i))
    decreases |s| - i
  {
    if i < |s| {
      if s[i] != ' ' && IsDigit(s[i]) {
        LexReadable(s, DigitsEnd(s, i + 1));
      } else {
        LexReadable(s, i + 1);
      }
    }
  }

  predicate ShuntOk(st: Shunt)
  {
    Readable(st.out) && forall i | 0 <= i < |st.ops| :: !IsDigit(st.ops[i])
  }

  lemma {:induction false} PopTighterOk(st: Shunt, p: int)
    requires ShuntOk(st)
    ensures ShuntOk(PopTighter(st, p))
    decreases |st.ops|
  {
    if st.ops != [] && GetPriority(st.ops[|st.ops| - 1]) >= p {
      PopTighterOk(Shunt(st.ops[..|st.ops| - 1], st.out + [[st.ops[|st.ops| - 1]]]), p);
    }
  }

  lemma {:induction false} PopToOpenOk(st: Shunt)
    requires ShuntOk(st)
    ensures PopToOpen(st).Some? ==> ShuntOk(PopToOpen(st).value)
    decreases |st.ops|
  {
    if st.ops != [] && st.ops[|st.ops| - 1] != '(' {
      PopToOpenOk(Shunt(st.ops[..|st.ops| - 1], st.out + [[st.ops[|st.ops| - 1]]]));
    }
  }

  lemma {:induction false} PopAllReadable(st: Shunt)
    requires ShuntOk(st)
    ensures Readable(PopAll(st))
    decreases |st.ops|
  {
    if st.ops != [] {
      PopAllReadable(Shunt(st.ops[..|st.ops| - 1], st.out + [[st.ops[|st.ops| - 1]]]));
    }
  }

  lemma FeedOk(st: Shunt, t: Token)
    requires ShuntOk(st) && TokensOk([t])
    ensures Feed(st, t).Some? ==> ShuntOk(Feed(st, t).value)
  {
    assert [t][0] == t;
    match t
    case Num(_) =>
    case Other(c) =>
      PopTighterOk(st, GetPriority(c));
      PopToOpenOk(st);
  }

  lemma {:induction false} FeedReadable(st: Shunt, ts: seq<Token>)
    requires ShuntOk(st) && TokensOk(ts)
    ensures FeedAll(st, ts).Some? ==> ShuntOk(FeedAll(st, ts).value)
    decreases |ts|
  {
    if ts != [] {
      FeedOk(st, ts[0]);
      if Feed(st, ts[0]).Some? {
        FeedReadable(Feed(st, ts[0]).value, ts[1..]);
      }
    }
  }

  /** A text whose tokens parse as e has the value of e; in particular no stack is ever found empty. */
  lemma EvaluateMeansParse(s: string, e: Expr)
    requires IsParse(e) && Lex(s, 0) == Tokens(e)
    ensures Evaluate(s) == Eval(e)
  {
    SuffixIsPostorder(e);
    PostorderReadable(e);
    PushTree(e, []);
    if Eval(e).Some? {
      assert [] + [Eval(e).value] == [Eval(e).value];
    }
  }

  // ----- which token sequences are expressions

  /** Operands and operators alternate, and every parenthesis is closed: operand tells whether an operand is due, depth
      how many parentheses are open. */
  predicate Alternates(ts: seq<Token>, operand: bool, depth: nat)
    decreases |ts|
  {
    if ts == [] then !operand && depth == 0
    else
      match ts[0]
      case Num(ds) => operand && IsNumber(ds) && Alternates(ts[1..], false, depth)
      case Other(c) =>
        if operand then c == '(' && Alternates(ts[1..], true, depth + 1)
        else if c == ')' then depth > 0 && Alternates(ts[1..], false, depth - 1)
        else GetPriority(c) >= 1 && Alternates(ts[1..], true, depth)
  }

  predicate IsNumber(ds: string)
  {
    ds != "" && forall i | 0 <= i < |ds| :: IsDigit(ds[i])
  }

  predicate IsInfix(ts: seq<Token>)
  {
    Alternates(ts, true, 0)
  }

  /** The tree t followed by an operator and its right operand, grouped by precedence, left to right. */
  function Graft(t: Expr, op: char, r: Expr): Expr
  {
    if t.Binary? && GetPriority(t.op) < GetPriority(op) then Binary(t.op, t.l, Graft(t.r, op, r))
    else Binary(op, t, r)
  }

  datatype Parsed = Parsed(e: Expr, rest: seq<Token>) | Wrong

  /** A number, or an expression in parentheses. */
  function ParseOperand(ts: seq<Token>): (p: Parsed)
    ensures p.Parsed? ==> |p.rest| < |ts|
    decreases |ts|, 0
  {
    if ts == [] then Wrong
    else if ts[0].Num? then Parsed(Number(ts[0].digits), ts[1..])
    else if ts[0].c != '(' then Wrong
    else
      var p := ParseExpr(ts[1..]);
      if p.Wrong? || p.rest == [] || p.rest[0] != Other(')') then Wrong else Parsed(Parens(p.e), p.rest[1..])
  }

  /** Goes on with operators and operands as long as there are any. */
  function ParseTail(t: Expr, ts: seq<Token>): (p: Parsed)
    ensures p.Parsed? ==> |p.rest| <= |ts|
    decreases |ts|, 1
  {
    if ts == [] || ts[0].Num? || GetPriority(ts[0].c) < 1 then Parsed(t, ts)
    else
      var p := ParseOperand(ts[1..]);
      if p.Wrong? then Wrong else ParseTail(Graft(t, ts[0].c, p.e), p.rest)
  }

  function ParseExpr(ts: seq<Token>): (p: Parsed)
    ensures p.Parsed? ==> |p.rest| < |ts|
    decreases |ts|, 1
  {
    var p := ParseOperand(ts);
    if p.Wrong? then Wrong else ParseTail(p.e, p.rest)
  }

  // ----- parsing gives a tree back

  lemma {:induction false} GraftTwice(t: Expr, p: char, a: Expr, q: char, b: Expr)
    requires GetPriority(p) < GetPriority(q) && Level(a) >= GetPriority(q)
    ensures Graft(Graft(t, p, a), q, b) == Graft(t, p, Binary(q, a, b))
  {
    if t.Binary? && GetPriority(t.op) < GetPriority(p) {
      GraftTwice(t.r, p, a, q, b);
    }
  }

  /** An operator and the tokens of its right operand graft the operand on. */
  lemma {:induction false} TailGrafts(t: Expr, op: char, r: Expr, x: seq<Token>)
    requires IsParse(r) && GetPriority(op) >= 1 && Level(r) > GetPriority(op)
    ensures ParseTail(t, [Other(op)] + Tokens(r) + x) == ParseTail(Graft(t, op, r), x)
    decreases r, 1
  {
    var ts := [Other(op)] + Tokens(r) + x;
    if r.Binary? {
      assert ts == [Other(op)] + Tokens(r.l) + ([Other(r.op)] + Tokens(r.r) + x);
      TailGrafts(t, op, r.l, [Other(r.op)] + Tokens(r.r) + x);
      TailGrafts(Graft(t, op, r.l), r.op, r.r, x);
      GraftTwice(t, op, r.l, r.op, r.r);
    } else {
      assert ts[1..] == Tokens(r) + x;
      OperandParses(r, x);
    }
  }

  lemma {:induction false} OperandParses(e: Expr, x: seq<Token>)
    requires IsParse(e) && !e.Binary?
    ensures ParseOperand(Tokens(e) + x) == Parsed(e, x)
    decreases e, 0
  {
    var ts := Tokens(e) + x;
    match e
    case Number(ds) => assert ts[1..] == x;
    case Parens(d) =>
      var y := [Other(')')] + x;
      assert ts[1..] == Tokens(d) + y && y[1..] == x;
      ExprParses(d, y);
      assert ParseTail(d, y) == Parsed(d, y);
  }

  lemma {:induction false} ExprParses(e: Expr, x: seq<Token>)
    requires IsParse(e)
    ensures ParseExpr(Tokens(e) + x) == ParseTail(e, x)
    decreases e, 2
  {
    if e.Binary? {
      var y := [Other(e.op)] + Tokens(e.r) + x;
      assert Tokens(e) + x == Tokens(e.l) + y;
      ExprParses(e.l, y);
      TailGrafts(e.l, e.op, e.r, x);
      assert Graft(e.l, e.op, e.r) == e;
    } else {
      OperandParses(e, x);
    }
  }

  /** A token sequence is the tokens of one tree at most. */
  lemma ParseUnique(d: Expr, e: Expr)
    requires IsParse(d) && IsParse(e) && Tokens(d) == Tokens(e)
    ensures d == e
  {
    assert Tokens(d) + [] == Tokens(d) && Tokens(e) + [] == Tokens(e);
    ExprParses(d, []);
    ExprParses(e, []);
  }

  // ----- every well-formed sequence is parsed

  lemma GraftTokens(a: seq<Token>, b: seq<Token>, c: seq<Token>, d: seq<Token>)
    ensures a + (b + c + d) == a + b + c + d
  {
  }

  lemma {:induction false} GraftParse(t: Expr, op: char, r: Expr)
    requires IsParse(t) && IsParse(r) && GetPriority(op) >= 1 && Level(r) == 3
    ensures IsParse(Graft(t, op, r)) && Tokens(Graft(t, op, r)) == Tokens(t) + [Other(op)] + Tokens(r)
    ensures Level(Graft(t, op, r)) == if Level(t) < GetPriority(op) then Level(t) else GetPriority(op)
  {
    if t.Binary? && GetPriority(t.op) < GetPriority(op) {
      GraftParse(t.r, op, r);
      GraftTokens(Tokens(t.l) + [Other(t.op)], Tokens(t.r), [Other(op)], Tokens(r));
    }
  }

  /** What is left is nothing, or goes on with a closing parenthesis. */
  predicate Ends(ts: seq<Token>) { ts == [] || ts[0] == Other(')') }

  lemma ParensTokens(e: Expr, ts: seq<Token>, rest: seq<Token>)
    requires ts != [] && ts[0] == Other('(') && ts[1..] == Tokens(e) + rest
    requires rest != [] && rest[0] == Other(')')
    ensures ts == Tokens(Parens(e)) + rest[1..]
  {
    assert rest == [Other(')')] + rest[1..];
    assert ts == [Other('(')] + ts[1..];
  }

  lemma {:induction false} OperandFound(ts: seq<Token>, depth: nat)
    requires Alternates(ts, true, depth)
    ensures var p := ParseOperand(ts);
            && p.Parsed? && IsParse(p.e) && Level(p.e) == 3 && ts == Tokens(p.e) + p.rest
            && Alternates(p.rest, false, depth)
    decreases |ts|, 0
  {
    hide Tokens;
    if ts[0].Other? {
      ExprFound(ts[1..], depth + 1);
      var p := ParseExpr(ts[1..]);
      ParensTokens(p.e, ts, p.rest);
    } else {
      NumberTokens(ts);
    }
  }

  lemma NumberTokens(ts: seq<Token>)
    requires ts != [] && ts[0].Num?
    ensures ts == Tokens(Number(ts[0].digits)) + ts[1..]
  {
  }

  lemma {:induction false} TailFound(t: Expr, ts: seq<Token>, depth: nat)
    requires IsParse(t) && Alternates(ts, false, depth)
    ensures var p := ParseTail(t, ts);
            && p.Parsed? && IsParse(p.e) && Tokens(t) + ts == Tokens(p.e) + p.rest
            && Alternates(p.rest, false, depth) && Ends(p.rest)
    decreases |ts|, 1
  {
    hide Tokens, Graft, IsParse, ParseOperand;
    if ts != [] && ts[0] != Other(')') {
      var op := ts[0].c;
      OperandFound(ts[1..], depth);
      var p := ParseOperand(ts[1..]);
      GraftParse(t, op, p.e);
      TailFound(Graft(t, op, p.e), p.rest, depth);
      Regrouped(Tokens(t), ts, Tokens(p.e), p.rest);
    }
  }

  lemma Regrouped(t: seq<Token>, ts: seq<Token>, a: seq<Token>, rest: seq<Token>)
    requires ts != [] && ts[1..] == a + rest
    ensures t + ts == t + [ts[0]] + a + rest
  {
    assert ts == [ts[0]] + (a + rest);
  }

  lemma {:induction false} ExprFound(ts: seq<Token>, depth: nat)
    requires Alternates(ts, true, depth)
    ensures var p := ParseExpr(ts);
            && p.Parsed? && IsParse(p.e) && ts == Tokens(p.e) + p.rest
            && Alternates(p.rest, false, depth) && Ends(p.rest)
    decreases |ts|, 1
  {
    OperandFound(ts, depth);
    var p := ParseOperand(ts);
    TailFound(p.e, p.rest, depth);
  }

  lemma {:induction false} TokensAlternate(e: Expr, x: seq<Token>, depth: nat)
    requires IsParse(e)
    ensures Alternates(Tokens(e) + x, true, depth) == Alternates(x, false, depth)
    decreases e
  {
    var ts := Tokens(e) + x;
    match e
    case Number(ds) => assert ts[1..] == x;
    case Parens(d) =>
      var y := [Other(')')] + x;
      assert ts[1..] == Tokens(d) + y && y[1..] == x;
      TokensAlternate(d, y, depth + 1);
    case Binary(op, l, r) =>
      var y := [Other(op)] + (Tokens(r) + x);
      assert ts == Tokens(l) + y && y[1..] == Tokens(r) + x;
      TokensAlternate(l, y, depth);
      TokensAlternate(r, x, depth);
  }

  /** The well-formed sequences are exactly the tokens of the parse trees. */
  lemma InfixIff(ts: seq<Token>)
    ensures IsInfix(ts) <==> exists e :: IsParse(e) && Tokens(e) == ts
  {
    if IsInfix(ts) {
      ExprFound(ts, 0);
      var p := ParseExpr(ts);
      assert p.rest == [] && Tokens(p.e) + [] == Tokens(p.e);
    }
    if e :| IsParse(e) && Tokens(e) == ts {
      TokensAlternate(e, [], 0);
      assert Tokens(e) + [] == ts;
    }
  }

  /** So every text whose tokens are well-formed has the value of the one tree that they are the tokens of. */
  lemma InfixEvaluates(s: string) returns (e: Expr)
    requires IsInfix(Lex(s, 0))
    ensures IsParse(e) && Tokens(e) == Lex(s, 0) && Evaluate(s) == Eval(e)
    ensures forall d :: IsParse(d) && Tokens(d) == Lex(s, 0) ==> d == e
  {
    InfixIff(Lex(s, 0));
    e :| IsParse(e) && Tokens(e) == Lex(s, 0);
    EvaluateMeansParse(s, e);
    forall d | IsParse(d) && Tokens(d) == Lex(s, 0) ensures d == e {
      ParseUnique(d, e);
    }
  }

  // ----- writing an expression with any spacing

  function Spaces(n: nat): string { seq(n, _ => ' ') }

  function TokenText(t: Token): string { if t.Num? then t.digits else [t.c] }

  /** The tokens written one after another, each after the given number of spaces, and spaces at the end. */
  function Write(ts: seq<Token>, gaps: seq<nat>): string
    requires |gaps| == |ts| + 1
    decreases |ts|
  {
    if ts == [] then Spaces(gaps[0])
    else Spaces(gaps[0]) + TokenText(ts[0]) + Write(ts[1..], gaps[1..])
  }

  /** No two numbers stand side by side, and no token is a space. */
  predicate Separate(ts: seq<Token>)
  {
    && (forall k | 0 <= k < |ts| - 1 :: !(ts[k].Num? && ts[k + 1].Num?))
    && (forall k | 0 <= k < |ts| :: ts[k] != Other(' '))
  }

  lemma {:induction false} LexSpaces(n: nat, s: string, i: nat)
    requires i <= n && n <= |s| && forall k | i <= k < n :: s[k] == ' '
    ensures Lex(s, i) == Lex(s, n)
    decreases n - i
  {
    if i < n {
      LexSpaces(n, s, i + 1);
    }
  }

  lemma {:induction false} DigitsRun(s: string, i: nat, j: nat)
    requires i <= j <= |s| && (forall k | i <= k < j :: IsDigit(s[k])) && (j < |s| ==> !IsDigit(s[j]))
    ensures DigitsEnd(s, i) == j
    decreases j - i
  {
    if i < j {
      DigitsRun(s, i + 1, j);
    }
  }

  /** Spaces and then one token, followed by nothing that could prolong it. */
  lemma LexOne(pre: string, g: nat, t: Token, rest: string)
    requires TokensOk([t]) && t != Other(' ') && (t.Num? && rest != "" ==> !IsDigit(rest[0]))
    ensures var s := pre + (Spaces(g) + TokenText(t) + rest);
      |pre| + g + |TokenText(t)| <= |s| && Lex(s, |pre|) == [t] + Lex(s, |pre| + g + |TokenText(t)|)
  {
    assert [t][0] == t;
    var x := TokenText(t);
    var s, i, j := pre + (Spaces(g) + x + rest), |pre| + g, |pre| + g + |x|;
    LexSpaces(i, s, |pre|);
    assert s[i..j] == x;
    assert forall k | i <= k < j :: s[k] == x[k - i];
    if t.Num? {
      assert j < |s| ==> s[j] == rest[0];
      DigitsRun(s, i + 1, j);
    }
  }

  /** The tokens of a text written from tokens are those tokens, whatever the spacing. */
  lemma {:induction false} LexWritten(pre: string, ts: seq<Token>, gaps: seq<nat>)
    requires |gaps| == |ts| + 1 && TokensOk(ts) && Separate(ts)
    ensures Lex(pre + Write(ts, gaps), |pre|) == ts
    decreases |ts|
  {
    hide Lex, TokenText;
    var g := gaps[0];
    if ts == [] {
      LexSpaces(|pre| + g, pre + Spaces(g), |pre|);
      LexEnd(pre + Spaces(g));
    } else {
      var t, rest := ts[0], Write(ts[1..], gaps[1..]);
      var x := TokenText(t);
      if t.Num? {
        StartsWithout(ts[1..], gaps[1..]);
      }
      assert TokensOk([t]);
      LexOne(pre, g, t, rest);
      var p := pre + (Spaces(g) + x);
      assert pre + (Spaces(g) + x + rest) == p + rest;
      LexWritten(p, ts[1..], gaps[1..]);
    }
  }

  /** What is written after a number does not go on with a digit. */
  lemma StartsWithout(ts: seq<Token>, gaps: seq<nat>)
    requires |gaps| == |ts| + 1 && TokensOk(ts) && (ts != [] ==> ts[0].Other?)
    ensures Write(ts, gaps) != "" ==> !IsDigit(Write(ts, gaps)[0])
  {
  }

  lemma {:induction false} TokensSeparate(e: Expr)
    requires IsParse(e)
    ensures TokensOk(Tokens(e)) && Separate(Tokens(e))
  {
    match e
    case Number(ds) =>
    case Parens(d) => TokensSeparate(d);
    case Binary(op, l, r) =>
      TokensSeparate(l);
      TokensSeparate(r);
      var a, b := Tokens(l), Tokens(r);
      var ts := a + [Other(op)] + b;
      forall k | 0 <= k < |ts| - 1 ensures !(ts[k].Num? && ts[k + 1].Num?) {
        if k > |a| {
          assert ts[k] == b[k - |a| - 1] && ts[k + 1] == b[k - |a|];
        }
      }
  }

  /** Every expression, written with any spacing around its tokens, evaluates to its value. */
  lemma WrittenExpressionValue(e: Expr, gaps: seq<nat>)
    requires IsParse(e) && |gaps| == |Tokens(e)| + 1
    ensures Evaluate(Write(Tokens(e), gaps)) == Eval(e)
  {
    TokensSeparate(e);
    LexWritten("", Tokens(e), gaps);
    assert "" + Write(Tokens(e), gaps) == Write(Tokens(e), gaps);
    EvaluateMeansParse(Write(Tokens(e), gaps), e);
  }

  // ----- the grammar, and the arithmetic it stands for

  /** Terms joined by + and -, from the left. */
  predicate IsSum(e: Expr)
    decreases e, 2
  {
    IsTerm(e) || (e.Binary? && (e.op == '+' || e.op == '-') && IsSum(e.l) && IsTerm(e.r))
  }

  /** Factors joined by * and /, from the left. */
  predicate IsTerm(e: Expr)
    decreases e, 1
  {
    IsFactor(e) || (e.Binary? && (e.op == '*' || e.op == '/') && IsTerm(e.l) && IsFactor(e.r))
  }

  /** A number, or a sum in parentheses. */
  predicate IsFactor(e: Expr)
    decreases e, 0
  {
    match e
    case Number(ds) => ds != "" && forall i | 0 <= i < |ds| :: ds[i] in "0123456789"
    case Parens(d) => IsSum(d)
    case Binary(_, _, _) => false
  }

  lemma DigitIs(c: char)
    ensures IsDigit(c) <==> c in "0123456789"
  {
    var digits := "0123456789";
    if IsDigit(c) {
      var d := c as int - '0' as int;
      assert d == 0 || d == 1 || d == 2 || d == 3 || d == 4 || d == 5 || d == 6 || d == 7 || d == 8 || d == 9;
      assert c == digits[d];
    }
  }

  lemma NumberIs(ds: string)
    ensures IsNumber(ds) <==> ds != "" && forall i | 0 <= i < |ds| :: ds[i] in "0123456789"
  {
    forall c: char ensures IsDigit(c) <==> c in "0123456789" {
      DigitIs(c);
    }
  }

  /** The trees that the compiler follows are exactly those of the grammar. */
  lemma {:induction false} ParseIsSum(e: Expr)
    ensures IsParse(e) <==> IsSum(e)
    ensures IsParse(e) && Level(e) >= 2 <==> IsTerm(e)
    ensures IsParse(e) && Level(e) >= 3 <==> IsFactor(e)
  {
    assert IsSum(e) <==> IsTerm(e) || (e.Binary? && (e.op == '+' || e.op == '-') && IsSum(e.l) && IsTerm(e.r));
    assert IsTerm(e) <==> IsFactor(e) || (e.Binary? && (e.op == '*' || e.op == '/') && IsTerm(e.l) && IsFactor(e.r));
    match e
    case Number(ds) =>
      NumberIs(ds);
      assert IsFactor(e) <==> IsNumber(ds);
    case Parens(d) =>
      ParseIsSum(d);
      assert IsFactor(e) <==> IsSum(d);
    case Binary(op, l, r) =>
      ParseIsSum(l);
      ParseIsSum(r);
      assert !IsFactor(e);
  }

  /** The number that a digit writes. */
  function DigitOf(c: char): nat
  {
    if c == '1' then 1 else if c == '2' then 2 else if c == '3' then 3
    else if c == '4' then 4 else if c == '5' then 5 else if c == '6' then 6
    else if c == '7' then 7 else if c == '8' then 8 else if c == '9' then 9
    else 0
  }

  /** The number that digits write in base ten. */
  function NumberOf(ds: string): nat
  {
    if ds == "" then 0 else NumberOf(ds[..|ds| - 1]) * 10 + DigitOf(ds[|ds| - 1])
  }

  /** A value that a 32-bit signed integer holds. */
  function Fit(x: int): Option<int>
  {
    if -2147483648 <= x <= 2147483647 then Some(x) else None
  }

  /** The arithmetic that a tree stands for, as long as every number and every intermediate result fits. */
  function Meaning(e: Expr): Option<int>
  {
    match e
    case Number(ds) => Fit(NumberOf(ds))
    case Parens(d) => Meaning(d)
    case Binary(op, l, r) =>
      var a, b := Meaning(l), Meaning(r);
      if a.None? || b.None? then None
      else
        var x, y := a.value, b.value;
        if op == '+' then Fit(x + y)
        else if op == '-' then Fit(x - y)
        else if op == '*' then Fit(x * y)
        else if op == '/' && y != 0 then Fit(Quotient(x, y))
        else None
  }

  lemma Signs(k: int, d: int)
    ensures (-k) * (-d) == k * d && (-k) * d == k * (-d) == -(k * d)
  {
  }

  /** The quotient times the divisor, on the dividend's side of zero. */
  lemma QuotientTimes(x: int, y: int)
    requires y != 0
    ensures var k := Abs(x) / Abs(y) * Abs(y);
            0 <= k <= Abs(x) < k + Abs(y) && Quotient(x, y) * y == if x >= 0 then k else -k
  {
    Signs(Abs(x) / Abs(y), Abs(y));
  }

  /** The quotient is cut off towards zero: of the multiples of the divisor that are no larger than the dividend, it
      gives the one that is nearest. */
  lemma QuotientCutsOff(x: int, y: int)
    requires y != 0
    ensures Abs(x - Quotient(x, y) * y) < Abs(y) && Abs(Quotient(x, y) * y) <= Abs(x)
    ensures var z := Quotient(x, y) * y;
            && (x >= 0 ==> 0 <= z <= x && x - z < (if y > 0 then y else -y))
            && (x < 0 ==> x <= z <= 0 && z - x < (if y > 0 then y else -y))
  {
    QuotientTimes(x, y);
  }

  lemma ProductGrows(a: nat, b: nat)
    requires a > 0
    ensures a * b >= b
  {
    assert a * b == b + (a - 1) * b;
  }

  lemma MultipleApart(d: int, y: int)
    requires d != 0
    ensures Abs(d * y) >= Abs(y)
  {
    ProductGrows(Abs(d), Abs(y));
    Signs(Abs(d), Abs(y));
  }

  lemma NearTheSame(x: int, a: int, b: int, d: int)
    requires Abs(x - a) < d && Abs(x - b) < d && Abs(a) <= Abs(x) && Abs(b) <= Abs(x)
    ensures Abs(a - b) < d
  {
  }

  /** No other number is that quotient. */
  lemma QuotientOnly(x: int, y: int, q: int)
    requires y != 0 && Abs(x - q * y) < Abs(y) && Abs(q * y) <= Abs(x)
    ensures q == Quotient(x, y)
  {
    hide Quotient, Abs;
    QuotientCutsOff(x, y);
    NearTheSame(x, q * y, Quotient(x, y) * y, Abs(y));
    SameFactor(q, Quotient(x, y), y);
  }

  lemma SameFactor(a: int, b: int, y: int)
    requires y != 0 && Abs(a * y - b * y) < Abs(y)
    ensures a == b
  {
    hide Abs;
    Distributes(a, b, y);
    if a != b {
      MultipleApart(a - b, y);
    }
  }

  lemma Distributes(a: int, b: int, y: int)
    ensures (a - b) * y == a * y - b * y
  {
  }

  lemma {:induction false} NumberRead(ds: string)
    requires forall i | 0 <= i < |ds| :: IsDigit(ds[i])
    ensures DigitsValue(ds) == NumberOf(ds)
  {
    if ds != "" {
      NumberRead(ds[..|ds| - 1]);
      var c := ds[|ds| - 1];
      assert IsDigit(c);
      assert DigitOf(c) == c as int - '0' as int;
    }
  }

  lemma {:induction false} EvalIsMeaning(e: Expr)
    requires IsParse(e)
    ensures Eval(e) == Meaning(e)
  {
    match e
    case Number(ds) => NumberRead(ds);
    case Parens(d) => EvalIsMeaning(d);
    case Binary(op, l, r) =>
      EvalIsMeaning(l);
      EvalIsMeaning(r);
  }

  /** Every expression of the grammar, written with any spacing, evaluates to what it means. */
  lemma SumEvaluates(e: Expr, gaps: seq<nat>)
    requires IsSum(e) && |gaps| == |Tokens(e)| + 1
    ensures Evaluate(Write(Tokens(e), gaps)) == Meaning(e)
  {
    ParseIsSum(e);
    WrittenExpressionValue(e, gaps);
    EvalIsMeaning(e);
  }

  // ----- the program

  /** The converter and evaluator, with the operator stack, the postfix sequence and the number stack. */
  method GetIntFromStringExpression(expression: string) returns (result: Option<int>)
    ensures result == Evaluate(expression)
  {
    hide Lex, FeedAll, PushAll, PopAll, PopTighter, PopToOpen, Push;
    ghost var ts := Lex(expression, 0);
    LexReadable(expression, 0);
    FeedReadable(Shunt([], []), ts);
    var suffix: seq<string>, operators: seq<char> := [], [];
    var i, len := 0, |expression|;
    while i < len
      invariant 0 <= i <= len && ShuntOk(Shunt(operators, suffix))
      invariant FeedAll(Shunt(operators, suffix), Lex(expression, i)) == FeedAll(Shunt([], []), ts)
    {
      var cur := expression[i];
      LexStep(expression, i);
      if cur == ' ' {
        i := i + 1;
        continue;
      }
      if IsDigit(cur) {
        var start := i;
        FeedStep(Shunt(operators, suffix), Lex(expression, i));
        i := SkipDigits(expression, i);
        suffix := suffix + [expression[start..i]];
      } else {
        FeedStep(Shunt(operators, suffix), Lex(expression, i));
        ghost var before := Shunt(operators, suffix);
        FeedOk(before, Other(cur));
        if operators == [] || cur == '(' {
          operators := operators + [cur];
        } else if cur != ')' {
          operators, suffix := MoveTighter(operators, suffix, cur);
          operators := operators + [cur];
        } else {
          var ok;
          ok, operators, suffix := MoveToOpen(operators, suffix);
          if !ok {
            return None;
          }
        }
        i := i + 1;
      }
    }
    LexEnd(expression);
    FeedEnd(Shunt(operators, suffix));
    PopAllReadable(Shunt(operators, suffix));
    suffix := MoveAll(operators, suffix);
    result := RunPostfix(suffix);
  }

  method SkipDigits(s: string, start: nat) returns (i: nat)
    requires start < |s| && IsDigit(s[start])
    ensures i == DigitsEnd(s, start + 1)
  {
    i := start;
    while i < |s| && IsDigit(s[i])
      invariant start <= i <= |s| && DigitsEnd(s, i) == DigitsEnd(s, start)
    {
      i := i + 1;
    }
  }

  method MoveTighter(operators: seq<char>, suffix: seq<string>, cur: char) returns (ops: seq<char>, out: seq<string>)
    ensures Shunt(ops, out) == PopTighter(Shunt(operators, suffix), GetPriority(cur))
  {
    ops, out := operators, suffix;
    while ops != [] && GetPriority(ops[|ops| - 1]) >= GetPriority(cur)
      invariant PopTighter(Shunt(ops, out), GetPriority(cur)) == PopTighter(Shunt(operators, suffix), GetPriority(cur))
      decreases |ops|
    {
      out := out + [[ops[|ops| - 1]]];
      ops := ops[..|ops| - 1];
    }
  }

  method MoveToOpen(operators: seq<char>, suffix: seq<string>) returns (ok: bool, ops: seq<char>, out: seq<string>)
    ensures PopToOpen(Shunt(operators, suffix)) == if ok then Some(Shunt(ops, out)) else None
  {
    ops, out := operators, suffix;
    while ops != [] && ops[|ops| - 1] != '('
      invariant PopToOpen(Shunt(ops, out)) == PopToOpen(Shunt(operators, suffix))
      decreases |ops|
    {
      out := out + [[ops[|ops| - 1]]];
      ops := ops[..|ops| - 1];
    }
    ok := ops != [];
    if ok {
      ops := ops[..|ops| - 1];
    }
  }

  method MoveAll(operators: seq<char>, suffix: seq<string>) returns (out: seq<string>)
    ensures out == PopAll(Shunt(operators, suffix))
  {
    out := suffix;
    var ops := operators;
    while ops != []
      invariant PopAll(Shunt(ops, out)) == PopAll(Shunt(operators, suffix))
      decreases |ops|
    {
      out := out + [[ops[|ops| - 1]]];
      ops := ops[..|ops| - 1];
    }
  }

  method RunPostfix(suffix: seq<string>) returns (result: Option<int>)
    requires Readable(suffix)
    ensures result == match PushAll([], suffix)
                      case None => None
                      case Some(nums) => if nums == [] then None else Some(nums[|nums| - 1])
  {
    var nums: seq<int> := [];
    var k := 0;
    while k < |suffix|
      invariant 0 <= k <= |suffix|
      invariant PushAll(nums, suffix[k..]) == PushAll([], suffix)
    {
      var str := suffix[k];
      assert suffix[k..][0] == str && suffix[k..][1..] == suffix[k + 1..];
      if IsOperator(str) {
        if |nums| < 2 {
          return None;
        }
        ghost var all := nums;
        var num1 := nums[|nums| - 1];
        nums := nums[..|nums| - 1];
        var num2 := nums[|nums| - 1];
        nums := nums[..|nums| - 1];
        assert nums == all[..|all| - 2];
        var v := Calculate(num2, num1, str);
        if v.None? {
          return None;
        }
        nums := nums + [v.value];
      } else {
        var v := InInt(DigitsValue(str));
        if v.None? {
          return None;
        }
        nums := nums + [v.value];
      }
      k := k + 1;
    }
    return if nums == [] then None else Some(nums[|nums| - 1]);
  }

  lemma LexStep(s: string, i: nat)
    requires i < |s|
    ensures s[i] == ' ' ==> Lex(s, i) == Lex(s, i + 1)
    ensures s[i] != ' ' && IsDigit(s[i]) ==>
      var j := DigitsEnd(s, i + 1); Lex(s, i) != [] && Lex(s, i)[0] == Num(s[i..j]) && Lex(s, i)[1..] == Lex(s, j)
    ensures s[i] != ' ' && !IsDigit(s[i]) ==>
      Lex(s, i) != [] && Lex(s, i)[0] == Other(s[i]) && Lex(s, i)[1..] == Lex(s, i + 1)
  {
  }

  lemma LexEnd(s: string)
    ensures Lex(s, |s|) == []
  {
  }

  lemma FeedStep(st: Shunt, ts: seq<Token>)
    requires ts != []
    ensures FeedAll(st, ts) == match Feed(st, ts[0]) case None => None case Some(r) => FeedAll(r, ts[1..])
  {
  }

  lemma FeedEnd(st: Shunt)
    ensures FeedAll(st, []) == Some(st)
  {
  }
}
