/**
  Mod restrictions: a small expression language over mod sets. An expression is matched
  against the mods of a play while a context collects the mods it has matched; `test`
  compares what was matched with what was played.
 */
module ModRestriction {
  import opened Common
  import opened Mods

  /** `MCExpr`: `Exact(null)` is "NM", `Seq` needs every child, `Or` backtracks, `Combination` allows any subset. */
  datatype MCExpr =
    | Exact(mod: Option<Mod>)
    | Seq(items: seq<MCExpr>)
    | Or(lhs: MCExpr, rhs: MCExpr)
    | Combination(sets: seq<MCExpr>, excludeNoMod: bool)

  datatype TestResult = Success | TooMany | TooFew

  /**
    What `accept` does, as a value: whether it succeeds and the matched set afterwards.
    Whatever happens, it only adds played mods to what was matched before.
   */
  function Accept(e: MCExpr, mods: set<Mod>, matched: set<Mod>): (r: (bool, set<Mod>))
    ensures matched <= r.1 <= matched + mods
    decreases e, 1
  {
    match e
    case Exact(None) => (mods == {}, matched)
    case Exact(Some(m)) => if m in mods then (true, matched + {m}) else (false, matched)
    case Seq(items) => Fold(e, 0, true, mods, matched)
    case Combination(sets, excludeNoMod) =>
      var (anyMatch, after) := Fold(e, 0, false, mods, matched);
      (!excludeNoMod || anyMatch, after)
    case Or(lhs, rhs) =>
      var (l, afterLhs) := Accept(lhs, mods, matched);
      if l then (true, afterLhs)
      else
        var (r, afterRhs) := Accept(rhs, mods, matched);
        if r then (true, afterRhs) else (false, matched)
  }

  /** The children of a `Seq` or a `Combination`. */
  function Children(e: MCExpr): seq<MCExpr> {
    match e
    case Seq(items) => items
    case Combination(sets, _) => sets
    case _ => []
  }

  /**
    The `foldLeft` over the children from index `i`: every child runs, in order, on the
    context the previous one left; a `Seq` combines with `&&`, a `Combination` with `||`.
   */
  function Fold(e: MCExpr, i: nat, acc: bool, mods: set<Mod>, matched: set<Mod>): (r: (bool, set<Mod>))
    requires e.Seq? || e.Combination?
    requires i <= |Children(e)|
    ensures matched <= r.1 <= matched + mods
    decreases e, 0, |Children(e)| - i
  {
    var items := Children(e);
    if i == |items| then (acc, matched)
    else
      assert items[i] in items;
      var (ok, after) := Accept(items[i], mods, matched);
      Fold(e, i + 1, if e.Seq? then ok && acc else ok || acc, mods, after)
  }

  /** The matched set before child `k` runs: each earlier child has run on what the one before left. */
  function MatchedBefore(items: seq<MCExpr>, k: nat, mods: set<Mod>, matched: set<Mod>): set<Mod>
    requires k <= |items|
  {
    if k == 0 then matched
    else Accept(items[k - 1], mods, MatchedBefore(items, k - 1, mods, matched)).1
  }

  /** Whether child `j` succeeds on the context it is given. */
  predicate ChildAccepts(items: seq<MCExpr>, j: nat, mods: set<Mod>, matched: set<Mod>)
    requires j < |items|
  {
    Accept(items[j], mods, MatchedBefore(items, j, mods, matched)).0
  }

  lemma {:induction false} FoldFrom(e: MCExpr, i: nat, acc: bool, mods: set<Mod>, matched: set<Mod>)
    requires e.Seq? || e.Combination?
    requires i <= |Children(e)|
    ensures var items := Children(e);
      var r := Fold(e, i, acc, mods, MatchedBefore(items, i, mods, matched));
      && r.1 == MatchedBefore(items, |items|, mods, matched)
      && (e.Seq? ==> (r.0 <==> acc && forall j :: i <= j < |items| ==> ChildAccepts(items, j, mods, matched)))
      && (e.Combination? ==> (r.0 <==> acc || exists j :: i <= j < |items| && ChildAccepts(items, j, mods, matched)))
    decreases |Children(e)| - i
  {
    var items := Children(e);
    if i < |items| {
      var ok := ChildAccepts(items, i, mods, matched);
      FoldFrom(e, i + 1, if e.Seq? then ok && acc else ok || acc, mods, matched);
    }
  }

  /**
    A `Seq` runs every child, with no short cut, each on the context the previous one left,
    and succeeds iff all of them succeed.
   */
  lemma SeqAcceptsAll(items: seq<MCExpr>, mods: set<Mod>, matched: set<Mod>)
    ensures var r := Accept(Seq(items), mods, matched);
      && r.1 == MatchedBefore(items, |items|, mods, matched)
      && (r.0 <==> forall j :: 0 <= j < |items| ==> ChildAccepts(items, j, mods, matched))
  {
    FoldFrom(Seq(items), 0, true, mods, matched);
  }

  /**
    A `Combination` also runs every child; it succeeds when it may match nothing, and
    otherwise iff at least one child succeeds.
   */
  lemma CombinationAcceptsAny(sets: seq<MCExpr>, excludeNoMod: bool, mods: set<Mod>, matched: set<Mod>)
    ensures var r := Accept(Combination(sets, excludeNoMod), mods, matched);
      && r.1 == MatchedBefore(sets, |sets|, mods, matched)
      && (r.0 <==> !excludeNoMod || exists j :: 0 <= j < |sets| && ChildAccepts(sets, j, mods, matched))
  {
    FoldFrom(Combination(sets, excludeNoMod), 0, false, mods, matched);
  }

  /** `Exact(null)` succeeds iff no mod was played; `Exact(m)` iff m was, and only then records m. */
  lemma ExactMatches(mod: Option<Mod>, mods: set<Mod>, matched: set<Mod>)
    ensures var r := Accept(Exact(mod), mods, matched);
      && (mod.None? ==> r == (mods == {}, matched))
      && (mod.Some? ==> (r.0 <==> mod.value in mods) && (r.1 == matched + {mod.value} <==> r.0 || mod.value in matched))
  {
  }

  /**
    `Or` succeeds iff one side does on the context before it; the right side is tried only
    when the left fails, and a failure leaves the context as it was before the `Or`.
   */
  lemma OrBacktracks(lhs: MCExpr, rhs: MCExpr, mods: set<Mod>, matched: set<Mod>)
    ensures var r := Accept(Or(lhs, rhs), mods, matched);
      && (r.0 <==> Accept(lhs, mods, matched).0 || Accept(rhs, mods, matched).0)
      && (Accept(lhs, mods, matched).0 ==> r == Accept(lhs, mods, matched))
      && (!r.0 ==> r.1 == matched)
  {
  }

  /** `Context`: the mods matched so far. */
  class Context {
    var matched: set<Mod>

    constructor (matched: set<Mod>)
      ensures this.matched == matched
    {
      this.matched := matched;
    }
  }

  /** `accept(mods, context)`, updating the context in place. */
  method AcceptIn(e: MCExpr, mods: set<Mod>, ctx: Context) returns (ok: bool)
    modifies ctx
    ensures (ok, ctx.matched) == Accept(e, mods, old(ctx.matched))
    decreases e, 1
  {
    match e
    case Exact(mod) =>
      if mod.None? {
        return mods == {};
      }
      if mod.value in mods {
        ctx.matched := ctx.matched + {mod.value};
        return true;
      }
      return false;
    case Or(lhs, rhs) =>
      var savePoint := ctx.matched;
      var l := AcceptIn(lhs, mods, ctx);
      if l {
        return true;
      }
      ctx.matched := savePoint;
      var r := AcceptIn(rhs, mods, ctx);
      if r {
        return true;
      }
      ctx.matched := savePoint;
      return false;
    case Seq(_) =>
      ok := AcceptChildren(e, mods, ctx);
    case Combination(_, excludeNoMod) =>
      var anyMatch := AcceptChildren(e, mods, ctx);
      ok := !excludeNoMod || anyMatch;
  }

  /** The `foldLeft` of a `Seq` or a `Combination`: every child runs on the shared context. */
  method AcceptChildren(e: MCExpr, mods: set<Mod>, ctx: Context) returns (acc: bool)
    requires e.Seq? || e.Combination?
    modifies ctx
    ensures (acc, ctx.matched) == Fold(e, 0, e.Seq?, mods, old(ctx.matched))
    decreases e, 0
  {
    var items := Children(e);
    acc := e.Seq?;
    var i := 0;
    while i < |items|
      invariant 0 <= i <= |items|
      invariant Fold(e, i, acc, mods, ctx.matched) == Fold(e, 0, e.Seq?, mods, old(ctx.matched))
    {
      assert items[i] in items;
      var child := AcceptIn(items[i], mods, ctx);
      acc := if e.Seq? then child && acc else child || acc;
      i := i + 1;
    }
  }

  /** The played mods that `test` looks at: those that change difficulty. */
  function Considered(mods: seq<Mod>, difficultyChange: set<Mod>): (r: set<Mod>)
    ensures forall m :: m in r <==> m in mods && m in difficultyChange
  {
    set m | m in mods && m in difficultyChange
  }

  /**
    The verdict of `test`: Success when the expression matches and accounts for every
    played mod, TooMany when it matches but some played mod is unmatched, TooFew when it
    fails. Since `accept` only records played mods, these are the only outcomes.
   */
  function Verdict(e: MCExpr, mods: seq<Mod>, difficultyChange: set<Mod>): (r: TestResult)
    ensures var played := Considered(mods, difficultyChange);
      var (ok, matched) := Accept(e, played, {});
      && (r == Success <==> ok && matched == played)
      && (r == TooMany <==> ok && exists m :: m in played && m !in matched)
      && (r == TooFew <==> !ok)
  {
    var played := Considered(mods, difficultyChange);
    var (ok, matched) := Accept(e, played, {});
    if ok && matched == played then Success
    else if ok then TooMany
    else TooFew
  }

  /** `test(mods)`: `accept` on the played mods from an empty context, then the verdict. */
  method Test(e: MCExpr, mods: seq<Mod>, difficultyChange: set<Mod>) returns (r: TestResult)
    ensures r == Verdict(e, mods, difficultyChange)
  {
    var played := Considered(mods, difficultyChange);
    var ctx := new Context({});
    var ok := AcceptIn(e, played, ctx);
    var exactMatch := ctx.matched == played;
    if ok && exactMatch {
      r := Success;
    } else if ok {
      r := TooMany;
    } else {
      r := TooFew;
    }
  }

  /** A mod that does not change difficulty never changes the verdict. */
  lemma VerdictIgnoresOtherMods(e: MCExpr, mods: seq<Mod>, extra: Mod, difficultyChange: set<Mod>)
    requires extra !in difficultyChange
    ensures Verdict(e, mods + [extra], difficultyChange) == Verdict(e, mods, difficultyChange)
  {
    assert Considered(mods + [extra], difficultyChange) == Considered(mods, difficultyChange);
  }

  /** The parse tree of a restriction, one alternative per rule of its grammar. */
  datatype ExprCtx =
    | ModCtx(text: string)                        // MOD, including "NM"
    | OrCtx(left: ExprCtx, right: ExprCtx)        // expr '|' expr
    | GroupCtx(inner: ExprCtx)                    // '(' expr ')'
    | CombCtx(negated: bool, exprs: seq<ExprCtx>) // '!'? '{' expr (',' expr)* '}'
    | SeqCtx(left: ExprCtx, right: ExprCtx)       // expr expr

  /**
    `produceModRestriction(ctx)`. A juxtaposition splices the operands that are already a
    `Seq` into one list. A mod name that is not a constant fails, as `valueOf` throws.
   */
  function Produce(ctx: ExprCtx): (r: Result<MCExpr, string>)
    decreases ctx, 1
  {
    match ctx
    case ModCtx(text) =>
      if text == "NM" then Ok(Exact(None))
      else if ValueOf(text).Some? then Ok(Exact(Some(ValueOf(text).value)))
      else Err(text)
    case OrCtx(l, rh) =>
      (match Produce(l)
       case Err(e) => Err(e)
       case Ok(lhs) =>
         match Produce(rh)
         case Err(e) => Err(e)
         case Ok(rhs) => Ok(Or(lhs, rhs)))
    case GroupCtx(inner) => Produce(inner)
    case CombCtx(negated, exprs) =>
      (match ProduceAll(ctx, 0, [])
       case Err(e) => Err(e)
       case Ok(sets) => Ok(Combination(sets, negated)))
    case SeqCtx(l, rh) =>
      match Produce(l)
      case Err(e) => Err(e)
      case Ok(lhs) =>
        match Produce(rh)
        case Err(e) => Err(e)
        case Ok(rhs) => Ok(Seq(Operands(lhs) + Operands(rhs)))
  }

  /** An operand of a juxtaposition: the items of a `Seq`, otherwise the expression alone. */
  function Operands(e: MCExpr): seq<MCExpr> {
    if e.Seq? then e.items else [e]
  }

  /** `ctx.expr().map(::produceModRestriction)` for a combination, from index `i`. */
  function ProduceAll(ctx: ExprCtx, i: nat, acc: seq<MCExpr>): (r: Result<seq<MCExpr>, string>)
    requires ctx.CombCtx? && i <= |ctx.exprs|
    ensures r.Ok? ==> |r.value| == |acc| + |ctx.exprs| - i && r.value[..|acc|] == acc
    decreases ctx, 0, |ctx.exprs| - i
  {
    if i == |ctx.exprs| then Ok(acc)
    else
      assert ctx.exprs[i] in ctx.exprs;
      match Produce(ctx.exprs[i])
      case Err(e) => Err(e)
      case Ok(x) => ProduceAll(ctx, i + 1, acc + [x])
  }

  /** No `Seq` has a `Seq` as a direct child, at any depth. */
  predicate Flat(e: MCExpr) {
    match e
    case Exact(_) => true
    case Or(l, r) => Flat(l) && Flat(r)
    case Seq(items) => forall x :: x in items ==> !x.Seq? && Flat(x)
    case Combination(sets, _) => forall x :: x in sets ==> Flat(x)
  }

  lemma {:induction false} ProduceAllFlat(ctx: ExprCtx, i: nat, acc: seq<MCExpr>)
    requires ctx.CombCtx? && i <= |ctx.exprs|
    requires forall x :: x in acc ==> Flat(x)
    ensures ProduceAll(ctx, i, acc).Ok? ==> forall x :: x in ProduceAll(ctx, i, acc).value ==> Flat(x)
    decreases ctx, 0, |ctx.exprs| - i
  {
    if i < |ctx.exprs| {
      assert ctx.exprs[i] in ctx.exprs;
      ProduceFlat(ctx.exprs[i]);
      match Produce(ctx.exprs[i])
      case Err(_) =>
      case Ok(x) => ProduceAllFlat(ctx, i + 1, acc + [x]);
    }
  }

  /** Every expression `produceModRestriction` builds is flat: juxtaposition never nests a `Seq` in a `Seq`. */
  lemma {:induction false} ProduceFlat(ctx: ExprCtx)
    ensures Produce(ctx).Ok? ==> Flat(Produce(ctx).value)
    decreases ctx, 1
  {
    match ctx
    case ModCtx(_) =>
    case GroupCtx(inner) => ProduceFlat(inner);
    case OrCtx(l, rh) => ProduceFlat(l); ProduceFlat(rh);
    case CombCtx(_, _) => ProduceAllFlat(ctx, 0, []);
    case SeqCtx(l, rh) =>
      ProduceFlat(l);
      ProduceFlat(rh);
      if Produce(ctx).Ok? {
        var lhs := Produce(l).value;
        var rhs := Produce(rh).value;
        assert forall x :: x in Operands(lhs) ==> !x.Seq? && Flat(x);
        assert forall x :: x in Operands(rhs) ==> !x.Seq? && Flat(x);
      }
  }

  /** A two-item `Seq` runs both items in turn and needs both. */
  lemma SeqOfTwo(a: MCExpr, b: MCExpr, mods: set<Mod>, matched: set<Mod>)
    ensures var (x, m1) := Accept(a, mods, matched);
      var (y, m2) := Accept(b, mods, m1);
      Accept(Seq([a, b]), mods, matched) == (x && y, m2)
  {
    var e := Seq([a, b]);
    var (x, m1) := Accept(a, mods, matched);
    var (y, m2) := Accept(b, mods, m1);
    assert Fold(e, 2, y && x, mods, m2) == (y && x, m2);
    assert Fold(e, 1, x, mods, m1) == (y && x, m2);
  }

  /** A three-item `Seq` runs all three in turn and needs all three. */
  lemma SeqOfThree(a: MCExpr, b: MCExpr, c: MCExpr, mods: set<Mod>, matched: set<Mod>)
    ensures var (x, m1) := Accept(a, mods, matched);
      var (y, m2) := Accept(b, mods, m1);
      var (z, m3) := Accept(c, mods, m2);
      Accept(Seq([a, b, c]), mods, matched) == (x && y && z, m3)
  {
    var e := Seq([a, b, c]);
    var (x, m1) := Accept(a, mods, matched);
    var (y, m2) := Accept(b, mods, m1);
    var (z, m3) := Accept(c, mods, m2);
    assert Fold(e, 3, z && y && x, mods, m3) == (z && y && x, m3);
    assert Fold(e, 2, y && x, mods, m2) == (z && y && x, m3);
    assert Fold(e, 1, x, mods, m1) == (z && y && x, m3);
  }

  function X(m: Mod): MCExpr { Exact(Some(m)) }

  function M(name: string): ExprCtx { ModCtx(name) }

  /** The verdict for a parse tree, or the name that failed to resolve. */
  function TestTree(tree: ExprCtx, mods: seq<Mod>, difficultyChange: set<Mod>): (r: Result<TestResult, string>)
    ensures r.Ok? <==> Produce(tree).Ok?
  {
    match Produce(tree)
    case Err(e) => Err(e)
    case Ok(e) => Ok(Verdict(e, mods, difficultyChange))
  }

  lemma ProduceMod(m: Mod)
    ensures Produce(M(Name(m))) == Ok(X(m))
  {
    ValueOfName(m);
  }

  lemma ProduceJuxt(l: ExprCtx, r: ExprCtx, a: MCExpr, b: MCExpr)
    requires Produce(l) == Ok(a) && Produce(r) == Ok(b)
    ensures Produce(SeqCtx(l, r)) == Ok(Seq(Operands(a) + Operands(b)))
  {
  }

  lemma ProduceOr(l: ExprCtx, r: ExprCtx, a: MCExpr, b: MCExpr)
    requires Produce(l) == Ok(a) && Produce(r) == Ok(b)
    ensures Produce(GroupCtx(OrCtx(l, r))) == Ok(Or(a, b))
  {
  }

  lemma ProduceComb(negated: bool, l: ExprCtx, r: ExprCtx, a: MCExpr, b: MCExpr)
    requires Produce(l) == Ok(a) && Produce(r) == Ok(b)
    ensures Produce(CombCtx(negated, [l, r])) == Ok(Combination([a, b], negated))
  {
    var c := CombCtx(negated, [l, r]);
    assert c.exprs[0] == l && c.exprs[1] == r;
    assert [] + [a] == [a] && [a] + [b] == [a, b];
    assert ProduceAll(c, 2, [a, b]) == Ok([a, b]);
    assert ProduceAll(c, 1, [a]) == Ok([a, b]);
    assert ProduceAll(c, 0, []) == Ok([a, b]);
  }

  lemma ProduceCombOne(negated: bool, l: ExprCtx, a: MCExpr)
    requires Produce(l) == Ok(a)
    ensures Produce(CombCtx(negated, [l])) == Ok(Combination([a], negated))
  {
    var c := CombCtx(negated, [l]);
    assert c.exprs[0] == l;
    assert [] + [a] == [a];
    assert ProduceAll(c, 1, [a]) == Ok([a]);
    assert ProduceAll(c, 0, []) == Ok([a]);
  }

  /** `NM`, `HD`, `HDHR`: exact matches, and their failures. */
  lemma ExamplesExact(dc: set<Mod>)
    requires {EZ, HT, HR, DT, HD} <= dc
    ensures TestTree(M("NM"), [], dc) == Ok(Success)
    ensures TestTree(M("HD"), [HD], dc) == Ok(Success)
    ensures TestTree(SeqCtx(M("HD"), M("HR")), [HD, HR], dc) == Ok(Success)
    ensures TestTree(M("NM"), [HD], dc) == Ok(TooFew)
    ensures TestTree(M("HD"), [HR], dc) == Ok(TooFew)
    ensures TestTree(M("HR"), [HD, HR], dc) == Ok(TooMany)
  {
    ProduceMod(HD);
    ProduceMod(HR);
    ProduceJuxt(M("HD"), M("HR"), X(HD), X(HR));
    assert [X(HD)] + [X(HR)] == [X(HD), X(HR)];
    SeqOfTwo(X(HD), X(HR), {HD, HR}, {});
    assert Considered([], dc) == {};
    assert Considered([HD], dc) == {HD};
    assert Considered([HR], dc) == {HR};
    assert Considered([HD, HR], dc) == {HD, HR};
  }

  /** `HD(HREZ)` and `(HDHR)EZ` both flatten to one three-item `Seq`. */
  lemma ExamplesGrouped(dc: set<Mod>)
    requires {EZ, HT, HR, DT, HD} <= dc
    ensures TestTree(SeqCtx(M("HD"), GroupCtx(SeqCtx(M("HR"), M("EZ")))), [EZ, HD, HR], dc) == Ok(Success)
    ensures TestTree(SeqCtx(GroupCtx(SeqCtx(M("HD"), M("HR"))), M("EZ")), [EZ, HD, HR], dc) == Ok(Success)
  {
    ProduceMod(HD);
    ProduceMod(HR);
    ProduceMod(EZ);
    ProduceJuxt(M("HD"), M("HR"), X(HD), X(HR));
    ProduceJuxt(M("HR"), M("EZ"), X(HR), X(EZ));
    assert [X(HD)] + [X(HR)] == [X(HD), X(HR)];
    assert [X(HR)] + [X(EZ)] == [X(HR), X(EZ)];
    ProduceJuxt(M("HD"), GroupCtx(SeqCtx(M("HR"), M("EZ"))), X(HD), Seq([X(HR), X(EZ)]));
    ProduceJuxt(GroupCtx(SeqCtx(M("HD"), M("HR"))), M("EZ"), Seq([X(HD), X(HR)]), X(EZ));
    assert [X(HD)] + [X(HR), X(EZ)] == [X(HD), X(HR), X(EZ)];
    assert [X(HD), X(HR)] + [X(EZ)] == [X(HD), X(HR), X(EZ)];
    SeqOfThree(X(HD), X(HR), X(EZ), {EZ, HD, HR}, {});
    assert Considered([EZ, HD, HR], dc) == {EZ, HD, HR};
  }

  /** `EZ(HD|HR)` with either alternative. */
  lemma ExamplesOr(dc: set<Mod>)
    requires {EZ, HT, HR, DT, HD} <= dc
    ensures TestTree(SeqCtx(M("EZ"), GroupCtx(OrCtx(M("HD"), M("HR")))), [EZ, HD], dc) == Ok(Success)
    ensures TestTree(SeqCtx(M("EZ"), GroupCtx(OrCtx(M("HD"), M("HR")))), [EZ, HR], dc) == Ok(Success)
  {
    ProduceMod(HD);
    ProduceMod(HR);
    ProduceMod(EZ);
    var hdhr := Or(X(HD), X(HR));
    ProduceOr(M("HD"), M("HR"), X(HD), X(HR));
    ProduceJuxt(M("EZ"), GroupCtx(OrCtx(M("HD"), M("HR"))), X(EZ), hdhr);
    assert [X(EZ)] + [hdhr] == [X(EZ), hdhr];
    SeqOfTwo(X(EZ), hdhr, {EZ, HD}, {});
    SeqOfTwo(X(EZ), hdhr, {EZ, HR}, {});
    assert Considered([EZ, HD], dc) == {EZ, HD};
    assert Considered([EZ, HR], dc) == {EZ, HR};
  }

  /** `(HD|HR)(HT|DT)` with the second alternative on both sides. */
  lemma ExampleTwoOrs(dc: set<Mod>)
    requires {EZ, HT, HR, DT, HD} <= dc
    ensures TestTree(SeqCtx(GroupCtx(OrCtx(M("HD"), M("HR"))), GroupCtx(OrCtx(M("HT"), M("DT")))), [HR, DT], dc) == Ok(Success)
  {
    ProduceMod(HD);
    ProduceMod(HR);
    ProduceMod(HT);
    ProduceMod(DT);
    var hdhr := Or(X(HD), X(HR));
    var htdt := Or(X(HT), X(DT));
    ProduceOr(M("HD"), M("HR"), X(HD), X(HR));
    ProduceOr(M("HT"), M("DT"), X(HT), X(DT));
    ProduceJuxt(GroupCtx(OrCtx(M("HD"), M("HR"))), GroupCtx(OrCtx(M("HT"), M("DT"))), hdhr, htdt);
    assert [hdhr] + [htdt] == [hdhr, htdt];
    SeqOfTwo(hdhr, htdt, {HR, DT}, {});
    assert Considered([HR, DT], dc) == {HR, DT};
  }

  /** `{ HD, HR }` accepts no mods, or either one alone. */
  lemma ExamplesCombination(dc: set<Mod>)
    requires {EZ, HT, HR, DT, HD} <= dc
    ensures TestTree(CombCtx(false, [M("HD"), M("HR")]), [], dc) == Ok(Success)
    ensures TestTree(CombCtx(false, [M("HD"), M("HR")]), [HD], dc) == Ok(Success)
    ensures TestTree(CombCtx(false, [M("HD"), M("HR")]), [HR], dc) == Ok(Success)
  {
    ProduceMod(HD);
    ProduceMod(HR);
    ProduceComb(false, M("HD"), M("HR"), X(HD), X(HR));
    assert Considered([], dc) == {};
    assert Considered([HD], dc) == {HD};
    assert Considered([HR], dc) == {HR};
  }

  /** `{ HD, HR }` accepts both together; an unlisted mod beside them is one too many. */
  lemma ExamplesCombinationPairs(dc: set<Mod>)
    requires {EZ, HT, HR, DT, HD} <= dc
    ensures TestTree(CombCtx(false, [M("HD"), M("HR")]), [HD, HR], dc) == Ok(Success)
    ensures TestTree(CombCtx(false, [M("HD"), M("HR")]), [HD, DT], dc) == Ok(TooMany)
  {
    ProduceMod(HD);
    ProduceMod(HR);
    ProduceComb(false, M("HD"), M("HR"), X(HD), X(HR));
    assert Considered([HD, HR], dc) == {HD, HR};
    assert Considered([HD, DT], dc) == {HD, DT};
  }

  /** A negated combination must match something: `!{ HD }` fails on no mods and on HR alone. */
  lemma ExamplesNegated(dc: set<Mod>)
    requires {EZ, HT, HR, DT, HD} <= dc
    ensures TestTree(CombCtx(true, [M("HD")]), [], dc) == Ok(TooFew)
    ensures TestTree(SeqCtx(CombCtx(true, [M("HD")]), M("HR")), [HR], dc) == Ok(TooFew)
  {
    ProduceMod(HD);
    ProduceMod(HR);
    ProduceCombOne(true, M("HD"), X(HD));
    var neg := Combination([X(HD)], true);
    ProduceJuxt(CombCtx(true, [M("HD")]), M("HR"), neg, X(HR));
    assert [neg] + [X(HR)] == [neg, X(HR)];
    SeqOfTwo(neg, X(HR), {HR}, {});
    assert Considered([], dc) == {};
    assert Considered([HR], dc) == {HR};
  }

  /** `DT{ HD, HR }` with DT and HD. */
  lemma ExampleSeqWithCombination(dc: set<Mod>)
    requires {EZ, HT, HR, DT, HD} <= dc
    ensures TestTree(SeqCtx(M("DT"), CombCtx(false, [M("HD"), M("HR")])), [DT, HD], dc) == Ok(Success)
  {
    ProduceMod(HD);
    ProduceMod(HR);
    ProduceMod(DT);
    ProduceComb(false, M("HD"), M("HR"), X(HD), X(HR));
    var comb := Combination([X(HD), X(HR)], false);
    ProduceJuxt(M("DT"), CombCtx(false, [M("HD"), M("HR")]), X(DT), comb);
    assert [X(DT)] + [comb] == [X(DT), comb];
    SeqOfTwo(X(DT), comb, {DT, HD}, {});
    assert Considered([DT, HD], dc) == {DT, HD};
  }
}
