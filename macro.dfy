/**
  The `assert_instr` attribute macro: parse the arguments, check the item,
  build the shim when there are overrides, and emit the original item
  followed by one generated test.
 */
module Macro {
  import opened Wrappers
  import opened Syntax
  import opened Invocation
  import opened Naming
  import opened Attrs
  import opened Shims
  import Append
  import Seqs

  /**
    The shim `#attrs unsafe fn name(inputs) output { callee(args) }`, declared
    inside the test when the invocation has overrides.
   */
  datatype ShimFn = ShimFn(attrs: seq<Attribute>, name: Sym, inputs: seq<ArgCaptured>, output: ReturnType,
                           callee: Sym, args: seq<Expr>)

  /** The call to the runtime checker: the target's address, its name as text, the instruction as text. */
  datatype AssertCall = AssertCall(fnPtr: Sym, display: string, instr: string)

  /** The generated `#[test] #[allow(non_snake_case)]` function, `#[ignore]`d when `ignored`. */
  datatype TestFn = TestFn(name: Sym, ignored: bool, shim: Option<ShimFn>, call: AssertCall)

  /** The expansion: the item as it was, then the test. */
  datatype Output = Output(item: Item, test: TestFn)

  /** The test for `func`, asserting on the shim when there is one and on `func` otherwise. */
  function TestFor(func: ItemFn, instr: Sym, optimized: bool, shim: Option<ShimFn>): TestFn
  {
    var target := if shim.Some? then shim.value.name else func.ident;
    TestFn(AssertName(func.ident, instr), !optimized, shim, AssertCall(target, target, instr))
  }

  /**
    The shim's attribute list as emitted through `Append`: a fresh buffer
    holding the tokens of the target-prefixed attributes, one after another,
    in the order they are written on the function.
   */
  method EmitShimAttrs(attrs: seq<Attribute>) returns (tokens: Append.Tokens)
    ensures fresh(tokens)
    ensures tokens.stream == Seqs.Flatten(FeatureAttrs(attrs), AttrTokens)
  {
    tokens := new Append.Tokens();
    Append.ToTokens(FeatureAttrs(attrs), AttrTokens, tokens);
  }

  /**
    The expansion of an already-parsed invocation. It fails when the item is
    not a function, or when there are overrides and a parameter is not a
    captured identifier pattern; parameters are not inspected when there are no overrides.
   */
  function ExpandInvoc(invoc: Invoc, item: Item, optimized: bool): (r: Result<Output, Error>)
    ensures item.OtherItem? ==> r == Failure(NotAFunction)
    ensures r.Success? <==>
              item.Fn? && (invoc.args == [] || forall i :: 0 <= i < |item.func.inputs| ==> Bind(item.func.inputs[i]).Success?)
    ensures r.Success? ==>
              var t := r.value.test;
              && r.value.item == item
              && t.name == "assert_" + item.func.ident + "_" + invoc.instr
              && t.ignored == !optimized
              && (t.shim.None? <==> invoc.args == [])
              && t.call.display == t.call.fnPtr
              && t.call.instr == invoc.instr
              && t.call.fnPtr == (if invoc.args == [] then item.func.ident else item.func.ident + "_shim")
    ensures r.Success? && invoc.args != [] ==>
              var s := r.value.test.shim.value;
              && s.name == item.func.ident + "_shim"
              && s.callee == item.func.ident
              && s.output == item.func.output
              && s.attrs == FeatureAttrs(item.func.attrs)
  {
    match item
    case OtherItem(_) => Failure(NotAFunction)
    case Fn(func) =>
      if invoc.args == [] then Success(Output(item, TestFor(func, invoc.instr, optimized, None)))
      else
        match BindParams(func.inputs)
        case Failure(e) => Failure(e)
        case Success(bs) =>
          var shim := ShimFn(FeatureAttrs(func.attrs), ShimName(func.ident), Forwarded(invoc.args, bs), func.output,
                             func.ident, CallArgs(invoc.args, bs));
          Success(Output(item, TestFor(func, invoc.instr, optimized, Some(shim))))
  }

  /**
    The whole macro on the attribute's tokens. Expansion aborts, producing
    nothing, exactly when the arguments do not parse, the item is not a
    function, or there are overrides and some parameter is not a
    captured identifier pattern; the checks are made in that order.
   */
  function Expand(attr: seq<Token>, item: Item, optimized: bool): (r: Result<Output, Error>)
    ensures r.Failure? <==>
              || ParseInvoc(attr).None?
              || item.OtherItem?
              || (ParseInvoc(attr).value.args != [] &&
                  exists i :: 0 <= i < |item.func.inputs| && Bind(item.func.inputs[i]).Failure?)
    ensures ParseInvoc(attr).None? ==> r == Failure(MalformedAttribute)
    ensures ParseInvoc(attr).Some? && item.OtherItem? ==> r == Failure(NotAFunction)
    ensures r.Success? ==> r.value.item == item && r.value.test.call.instr == ParseInvoc(attr).value.instr
  {
    match ParseInvoc(attr)
    case None => Failure(MalformedAttribute)
    case Some(invoc) => ExpandInvoc(invoc, item, optimized)
  }

  /**
    The macro as the source runs it, with the parameter loop; `optimized`
    stands for the build's `cfg!(optimized)`.
   */
  method AssertInstr(attr: seq<Token>, item: Item, optimized: bool) returns (r: Result<Output, Error>)
    ensures r == Expand(attr, item, optimized)
  {
    var parsed := ParseInvoc(attr);
    if parsed.None? {
      return Failure(MalformedAttribute);
    }
    var invoc := parsed.value;
    if item.OtherItem? {
      return Failure(NotAFunction);
    }
    var func := item.func;
    var assertName := AssertName(func.ident, invoc.instr);
    var shimName := ShimName(func.ident);
    var toTest: Option<ShimFn>;
    var testName: Sym;
    if |invoc.args| == 0 {
      toTest, testName := None, func.ident;
    } else {
      var planned := ShimInputs(invoc.args, func.inputs);
      if planned.Failure? {
        return Failure(planned.error);
      }
      var attrs := FeatureAttrs(func.attrs);
      toTest := Some(ShimFn(attrs, shimName, planned.value.0, func.output, func.ident, planned.value.1));
      testName := shimName;
    }
    r := Success(Output(item, TestFn(assertName, !optimized, toTest, AssertCall(testName, testName, invoc.instr))));
  }

  /**
    With overrides, the first parameter that is not a captured identifier pattern
    aborts the expansion with that parameter's error.
   */
  lemma FirstBadParameterReported(invoc: Invoc, func: ItemFn, optimized: bool, i: nat)
    requires invoc.args != []
    requires i < |func.inputs| && Bind(func.inputs[i]).Failure?
    requires forall j :: 0 <= j < i ==> Bind(func.inputs[j]).Success?
    ensures ExpandInvoc(invoc, Fn(func), optimized) == Failure(Bind(func.inputs[i]).error)
  {
    BindParamsStops(func.inputs, i);
  }

  /**
    The shim's parameters are exactly the parameters no override names, each
    as originally declared and in the original relative order.
   */
  lemma ShimParameters(invoc: Invoc, func: ItemFn, optimized: bool)
    requires invoc.args != []
    requires ExpandInvoc(invoc, Fn(func), optimized).Success?
    ensures var s := ExpandInvoc(invoc, Fn(func), optimized).value.test.shim.value;
            var idx := ForwardedPositions(invoc.args, func.inputs);
            && |s.inputs| == |idx|
            && (forall k :: 0 <= k < |idx| ==> idx[k] < |func.inputs| && func.inputs[idx[k]] == Captured(s.inputs[k]))
            && (forall k1, k2 :: 0 <= k1 < k2 < |idx| ==> idx[k1] < idx[k2])
            && (forall i :: 0 <= i < |func.inputs| ==>
                  (i in idx <==> Lookup(invoc.args, func.inputs[i].capture.pat.sym).None?))
  {
    var s := ExpandInvoc(invoc, Fn(func), optimized).value.test.shim.value;
    assert s.inputs == Forwarded(invoc.args, BindParams(func.inputs).value);
    ForwardedInOrder(invoc.args, func.inputs);
  }

  /**
    The shim calls the original function with one argument per original
    parameter, in order: the expression of the first override naming that
    parameter, or else the parameter's own identifier.
   */
  lemma ShimArguments(invoc: Invoc, func: ItemFn, optimized: bool)
    requires invoc.args != []
    requires ExpandInvoc(invoc, Fn(func), optimized).Success?
    ensures var s := ExpandInvoc(invoc, Fn(func), optimized).value.test.shim.value;
            && |s.args| == |func.inputs|
            && forall i :: 0 <= i < |func.inputs| ==>
                 var name := func.inputs[i].capture.pat.sym;
                 s.args[i] == (if Lookup(invoc.args, name).Some? then Lookup(invoc.args, name).value else PathExpr(name))
  {
    var bs := BindParams(func.inputs).value;
    forall i | 0 <= i < |func.inputs|
      ensures bs[i].ident == func.inputs[i].capture.pat.sym
    {
    }
  }

  /**
    An override whose name matches no parameter, appended to a non-empty
    override list, is silently unused: it changes nothing, including whether
    expansion fails. (Added to an empty list it would create the shim.)
   */
  lemma UnusedOverrideIgnored(invoc: Invoc, o: Override, item: Item, optimized: bool)
    requires invoc.args != []
    requires item.Fn? ==> forall i :: 0 <= i < |item.func.inputs| ==>
               !(item.func.inputs[i].Captured? && item.func.inputs[i].capture.pat.IdentPat? && item.func.inputs[i].capture.pat.sym == o.0)
    ensures ExpandInvoc(Invoc(invoc.instr, invoc.args + [o]), item, optimized) == ExpandInvoc(invoc, item, optimized)
  {
    if item.Fn? && BindParams(item.func.inputs).Success? {
      var bs := BindParams(item.func.inputs).value;
      assert forall i :: 0 <= i < |bs| ==> item.func.inputs[i].capture.pat.sym == bs[i].ident;
      AppendOverrideNoEffect(invoc.args, o, bs);
    }
  }

  /** A later override repeating an earlier override's name is ignored. */
  lemma DuplicateOverrideIgnored(invoc: Invoc, e: Expr, name: Sym, item: Item, optimized: bool)
    requires Lookup(invoc.args, name).Some?
    ensures ExpandInvoc(Invoc(invoc.instr, invoc.args + [(name, e)]), item, optimized) == ExpandInvoc(invoc, item, optimized)
  {
    if item.Fn? && BindParams(item.func.inputs).Success? {
      AppendOverrideNoEffect(invoc.args, (name, e), BindParams(item.func.inputs).value);
    }
  }

  /** `(addl, b = 1)` parses to the instruction `addl` and the single override `b = 1`. */
  lemma AddAttrParses()
    ensures ParseInvoc([Group(Parenthesis, [Ident("addl"), Punct(','), Ident("b"), Punct('='), Literal("1")])])
         == Some(Invoc("addl", [("b", LitExpr("1"))]))
  {
    var args := [("b", LitExpr("1"))];
    var body := [Ident("addl"), Punct(','), Ident("b"), Punct('='), Literal("1")];
    var tail := body[1..];
    assert tail == [Punct(','), Ident("b"), Punct('='), Literal("1")];
    assert ParseExpr(tail[3]) == Some(LitExpr("1"));
    assert tail[4..] == [];
    assert ParseOverride(tail) == Some((args[0], []));
    assert ParseOverrides([]) == ([], []);
    assert [args[0]] + [] == args;
    assert ParseOverrides(tail) == (args, []);
  }

  /** A delimited override value such as `b = (1)` is one expression. */
  lemma GroupOverrideParses()
    ensures ParseInvoc([Group(Parenthesis, [Ident("addl"), Punct(','), Ident("b"), Punct('='), Group(Parenthesis, [Literal("1")])])])
         == Some(Invoc("addl", [("b", GroupExpr(Parenthesis, [Literal("1")]))]))
  {
    var args := [("b", GroupExpr(Parenthesis, [Literal("1")]))];
    ParseInvocRoundTrip(Invoc("addl", args));
    assert Seqs.Flatten(args, OverrideTokens) == OverrideTokens(args[0]) + Seqs.Flatten(args[1..], OverrideTokens);
  }

  /** Under `b = 1`, `a` is forwarded and `b` is replaced by `1`. */
  lemma AddShimPlan(a: ArgCaptured, b: ArgCaptured)
    requires a.pat.IdentPat? && a.pat.sym == "a" && b.pat.IdentPat? && b.pat.sym == "b"
    ensures BindParams([Captured(a), Captured(b)]) == Success([Binding("a", a), Binding("b", b)])
    ensures Forwarded([("b", LitExpr("1"))], [Binding("a", a), Binding("b", b)]) == [a]
    ensures CallArgs([("b", LitExpr("1"))], [Binding("a", a), Binding("b", b)]) == [PathExpr("a"), LitExpr("1")]
  {
    var args := [("b", LitExpr("1"))];
    var bs := [Binding("a", a), Binding("b", b)];
    var ins := [Captured(a), Captured(b)];
    assert BindParams(ins) == Success(bs) by {
      assert Bind(ins[0]).value == bs[0] && Bind(ins[1]).value == bs[1];
      assert |BindParams(ins).value| == 2;
      assert BindParams(ins).value == bs;
    }
    assert Lookup(args, "a") == None && Lookup(args, "b") == Some(LitExpr("1"));
    var keep := NotOverridden(args);
    assert Seqs.Filter(bs[2..], keep) == [];
    assert Seqs.Filter(bs[1..], keep) == Seqs.Filter(bs[2..], keep);
    assert Seqs.Filter(bs, keep) == [bs[0]] + Seqs.Filter(bs[1..], keep);
  }

  /**
    `fn add(a: i32, b: i32) -> i32` under `(addl, b = 1)`: the shim is
    `add_shim(a: i32) -> i32 { add(a, 1) }` and the test `assert_add_addl`
    asserts on it.
   */
  lemma AddWithOverride(optimized: bool)
    ensures
      var i32 := Type([Ident("i32")]);
      var a, b := ArgCaptured(IdentPat("a", []), i32), ArgCaptured(IdentPat("b", []), i32);
      var add := ItemFn([], "add", [Captured(a), Captured(b)], Returns(i32), []);
      var attr := [Group(Parenthesis, [Ident("addl"), Punct(','), Ident("b"), Punct('='), Literal("1")])];
      Expand(attr, Fn(add), optimized)
        == Success(Output(Fn(add), TestFn("assert_add_addl", !optimized,
                                          Some(ShimFn([], "add_shim", [a], Returns(i32), "add", [PathExpr("a"), LitExpr("1")])),
                                          AssertCall("add_shim", "add_shim", "addl"))))
  {
    var i32 := Type([Ident("i32")]);
    var a, b := ArgCaptured(IdentPat("a", []), i32), ArgCaptured(IdentPat("b", []), i32);
    var add := ItemFn([], "add", [Captured(a), Captured(b)], Returns(i32), []);
    var invoc := Invoc("addl", [("b", LitExpr("1"))]);
    var bs := [Binding("a", a), Binding("b", b)];
    AddAttrParses();
    AddShimPlan(a, b);
    assert FeatureAttrs([]) == [];
    assert AssertName("add", "addl") == "assert_add_addl";
    assert ShimName("add") == "add_shim";
    var shim := ShimFn([], "add_shim", Forwarded(invoc.args, bs), Returns(i32), "add", CallArgs(invoc.args, bs));
    assert ExpandInvoc(invoc, Fn(add), optimized) == Success(Output(Fn(add), TestFor(add, "addl", optimized, Some(shim))));
  }

  /**
    `fn add(mut a: i32, b: i32) -> i32` under `(addl, b = 1)`: `mut a` passes
    the parameter check, and the shim declares it with its `mut`.
   */
  lemma ModifiedParameterKept(optimized: bool)
    ensures
      var i32 := Type([Ident("i32")]);
      var a, b := ArgCaptured(IdentPat("a", [Ident("mut")]), i32), ArgCaptured(IdentPat("b", []), i32);
      var add := ItemFn([], "add", [Captured(a), Captured(b)], Returns(i32), []);
      var r := ExpandInvoc(Invoc("addl", [("b", LitExpr("1"))]), Fn(add), optimized);
      && r.Success?
      && r.value.test.shim.value.inputs == [a]
      && r.value.test.shim.value.args == [PathExpr("a"), LitExpr("1")]
  {
    var i32 := Type([Ident("i32")]);
    AddShimPlan(ArgCaptured(IdentPat("a", [Ident("mut")]), i32), ArgCaptured(IdentPat("b", []), i32));
  }

  /** The same function under `(addl)`: no shim, and the test asserts on `add` itself. */
  lemma AddWithoutOverride(optimized: bool)
    ensures
      var i32 := Type([Ident("i32")]);
      var add := ItemFn([], "add", [Captured(ArgCaptured(IdentPat("a", []), i32)), Captured(ArgCaptured(IdentPat("b", []), i32))],
                        Returns(i32), []);
      Expand([Group(Parenthesis, [Ident("addl")])], Fn(add), optimized)
        == Success(Output(Fn(add), TestFn("assert_add_addl", !optimized, None, AssertCall("add", "add", "addl"))))
  {
    assert ParseOverrides([]) == ([], []);
    assert ParseInvoc([Group(Parenthesis, [Ident("addl")])]) == Some(Invoc("addl", []));
    assert AssertName("add", "addl") == "assert_add_addl";
  }
}
