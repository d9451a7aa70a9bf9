/**
  The shim plan: validating the parameters, looking up overrides, and the
  loop that splits the parameters into the shim's own parameters and the
  arguments the shim passes to the original function.
 */
module Shims {
  import opened Wrappers
  import opened Syntax
  import opened Invocation
  import Seqs

  /** A validated parameter: a captured binding whose pattern is an identifier pattern naming `ident`. */
  datatype Binding = Binding(ident: Sym, capture: ArgCaptured)

  /**
    Validates one parameter: any identifier pattern binds, `mut`, `ref` and `@` forms
    included; a non-captured parameter and a captured non-identifier pattern are distinct errors.
   */
  function Bind(arg: FnArg): (r: Result<Binding, Error>)
    ensures r.Success? <==> arg.Captured? && arg.capture.pat.IdentPat?
    ensures r.Success? ==> r.value.capture == arg.capture && r.value.ident == arg.capture.pat.sym
    ensures r.Failure? ==> r.error == (if arg.Captured? then ArgumentNotBare else ArgumentHasPattern)
  {
    match arg
    case Captured(c) =>
      (match c.pat
       case IdentPat(s, _) => Success(Binding(s, c))
       case OtherPat(_) => Failure(ArgumentNotBare))
    case _ => Failure(ArgumentHasPattern)
  }

  /**
    Validates every parameter in order: succeeds, with one binding per
    parameter, exactly when all are captured identifier patterns.
   */
  function BindParams(inputs: seq<FnArg>): (r: Result<seq<Binding>, Error>)
    ensures r.Success? <==> forall i :: 0 <= i < |inputs| ==> Bind(inputs[i]).Success?
    ensures r.Success? ==> |r.value| == |inputs| && forall i :: 0 <= i < |inputs| ==> r.value[i] == Bind(inputs[i]).value
  {
    if inputs == [] then Success([])
    else match Bind(inputs[0])
      case Failure(e) => Failure(e)
      case Success(b) =>
        match BindParams(inputs[1..])
        case Failure(e) => Failure(e)
        case Success(bs) => Success([b] + bs)
  }

  /**
    The first override named `name`, if any: later overrides with the same
    name are never consulted.
   */
  function Lookup(overrides: seq<Override>, name: Sym): (r: Option<Expr>)
    ensures r.None? <==> forall i :: 0 <= i < |overrides| ==> overrides[i].0 != name
    ensures r.Some? ==> exists i :: 0 <= i < |overrides| && overrides[i] == (name, r.value)
                                    && forall j :: 0 <= j < i ==> overrides[j].0 != name
  {
    if overrides == [] then None
    else if overrides[0].0 == name then Some(overrides[0].1)
    else Lookup(overrides[1..], name)
  }

  /** A parameter is forwarded, i.e. kept as a shim parameter, when no override names it. */
  function NotOverridden(overrides: seq<Override>): Binding -> bool
  {
    (b: Binding) => Lookup(overrides, b.ident).None?
  }

  function CaptureOf(b: Binding): ArgCaptured
  {
    b.capture
  }

  /** The shim's parameters: the forwarded parameters, in their original order; never more than all of them. */
  function Forwarded(overrides: seq<Override>, bs: seq<Binding>): (r: seq<ArgCaptured>)
    ensures |r| <= |bs|
  {
    Seqs.Map(Seqs.Filter(bs, NotOverridden(overrides)), CaptureOf)
  }

  /** When every parameter is overridden the shim takes no parameters. */
  lemma ForwardedAllOverridden(overrides: seq<Override>, bs: seq<Binding>)
    requires forall i :: 0 <= i < |bs| ==> Lookup(overrides, bs[i].ident).Some?
    ensures Forwarded(overrides, bs) == []
  {
    Seqs.FilterNone(bs, NotOverridden(overrides));
  }

  /** When no parameter is overridden the shim takes every parameter, unchanged and in order. */
  lemma ForwardedNoneOverridden(overrides: seq<Override>, bs: seq<Binding>)
    requires forall i :: 0 <= i < |bs| ==> Lookup(overrides, bs[i].ident).None?
    ensures |Forwarded(overrides, bs)| == |bs|
    ensures forall i :: 0 <= i < |bs| ==> Forwarded(overrides, bs)[i] == bs[i].capture
  {
    Seqs.FilterAll(bs, NotOverridden(overrides));
  }

  /** What the shim passes for one parameter: its override's expression, or the parameter itself. */
  function Argument(overrides: seq<Override>, b: Binding): (r: Expr)
    ensures Lookup(overrides, b.ident).None? ==> r == PathExpr(b.ident)
    ensures Lookup(overrides, b.ident).Some? ==>
              exists i :: 0 <= i < |overrides| && overrides[i] == (b.ident, r)
                          && forall j :: 0 <= j < i ==> overrides[j].0 != b.ident
  {
    match Lookup(overrides, b.ident)
    case Some(e) => e
    case None => PathExpr(b.ident)
  }

  /** The arguments of the shim's call to the original function, one per parameter. */
  function CallArgs(overrides: seq<Override>, bs: seq<Binding>): (r: seq<Expr>)
    ensures |r| == |bs|
    ensures forall i :: 0 <= i < |bs| ==>
              (Lookup(overrides, bs[i].ident).None? ==> r[i] == PathExpr(bs[i].ident))
              && (Lookup(overrides, bs[i].ident).Some? ==> r[i] == Lookup(overrides, bs[i].ident).value)
    ensures overrides == [] ==> forall i :: 0 <= i < |bs| ==> r[i] == PathExpr(bs[i].ident)
  {
    seq(|bs|, i requires 0 <= i < |bs| => Argument(overrides, bs[i]))
  }

  /** Extending the parameters by one extends the shim's parameter list by it exactly when it is forwarded. */
  lemma ForwardedSnoc(overrides: seq<Override>, bs: seq<Binding>, b: Binding)
    ensures Forwarded(overrides, bs + [b])
         == Forwarded(overrides, bs) + (if Lookup(overrides, b.ident).None? then [b.capture] else [])
  {
    var keep := NotOverridden(overrides);
    Seqs.FilterAppend(bs, [b], keep);
    assert Seqs.Filter([b], keep) == (if keep(b) then [b] else []) + Seqs.Filter([], keep);
    var f1, f2 := Seqs.Filter(bs, keep), Seqs.Filter([b], keep);
    assert Seqs.Map(f1 + f2, CaptureOf) == Seqs.Map(f1, CaptureOf) + Seqs.Map(f2, CaptureOf);
  }

  /** Validation stops at the first invalid parameter and reports that parameter's error. */
  lemma {:induction false} BindParamsStops(inputs: seq<FnArg>, i: nat)
    requires i < |inputs| && Bind(inputs[i]).Failure?
    requires forall j :: 0 <= j < i ==> Bind(inputs[j]).Success?
    ensures BindParams(inputs) == Failure(Bind(inputs[i]).error)
  {
    if i > 0 {
      BindParamsStops(inputs[1..], i - 1);
    }
  }

  /** Extending the parameters by one adds that parameter's argument at the end of the call. */
  lemma CallArgsSnoc(overrides: seq<Override>, bs: seq<Binding>, b: Binding)
    ensures CallArgs(overrides, bs + [b]) == CallArgs(overrides, bs) + [Argument(overrides, b)]
  {
  }

  /**
    The parameter loop: fails with the first invalid parameter's error, and
    otherwise returns the shim's parameters (the forwarded ones) and the call's
    arguments (one per parameter), both in the original parameter order.
   */
  method ShimInputs(overrides: seq<Override>, inputs: seq<FnArg>) returns (r: Result<(seq<ArgCaptured>, seq<Expr>), Error>)
    ensures r.Failure? <==> BindParams(inputs).Failure?
    ensures r.Failure? ==> r.error == BindParams(inputs).error
    ensures r.Success? ==> r.value == (Forwarded(overrides, BindParams(inputs).value), CallArgs(overrides, BindParams(inputs).value))
  {
    var shimInputs: seq<ArgCaptured> := [];
    var inputVals: seq<Expr> := [];
    ghost var bound: seq<Binding> := [];
    for i := 0 to |inputs|
      invariant |bound| == i
      invariant forall j :: 0 <= j < i ==> Bind(inputs[j]) == Success(bound[j])
      invariant shimInputs == Forwarded(overrides, bound)
      invariant inputVals == CallArgs(overrides, bound)
    {
      var capture: ArgCaptured;
      match inputs[i] {
        case Captured(c) =>
          capture := c;
        case _ =>
          BindParamsStops(inputs, i);
          return Failure(ArgumentHasPattern);
      }
      var ident: Sym;
      match capture.pat {
        case IdentPat(s, _) =>
          ident := s;
        case OtherPat(_) =>
          BindParamsStops(inputs, i);
          return Failure(ArgumentNotBare);
      }
      var b := Binding(ident, capture);
      ForwardedSnoc(overrides, bound, b);
      CallArgsSnoc(overrides, bound, b);
      match Lookup(overrides, ident) {
        case Some(e) =>
          inputVals := inputVals + [e];
        case None =>
          shimInputs := shimInputs + [capture];
          inputVals := inputVals + [PathExpr(ident)];
      }
      bound := bound + [b];
    }
    assert BindParams(inputs).value == bound;
    return Success((shimInputs, inputVals));
  }

  /** The positions of the forwarded parameters among all the parameters. */
  ghost function ForwardedPositions(overrides: seq<Override>, inputs: seq<FnArg>): seq<nat>
    requires BindParams(inputs).Success?
  {
    Seqs.KeptIndices(BindParams(inputs).value, NotOverridden(overrides))
  }

  /**
    The forwarded parameters are exactly the parameters no override names,
    each as declared, in the original relative order.
   */
  lemma ForwardedInOrder(overrides: seq<Override>, inputs: seq<FnArg>)
    requires BindParams(inputs).Success?
    ensures |Forwarded(overrides, BindParams(inputs).value)| == |ForwardedPositions(overrides, inputs)|
    ensures forall k :: 0 <= k < |ForwardedPositions(overrides, inputs)| ==>
              ForwardedPositions(overrides, inputs)[k] < |inputs|
              && inputs[ForwardedPositions(overrides, inputs)[k]] == Captured(Forwarded(overrides, BindParams(inputs).value)[k])
    ensures forall k1, k2 :: 0 <= k1 < k2 < |ForwardedPositions(overrides, inputs)| ==>
              ForwardedPositions(overrides, inputs)[k1] < ForwardedPositions(overrides, inputs)[k2]
    ensures forall i :: 0 <= i < |inputs| ==>
              (i in ForwardedPositions(overrides, inputs) <==> Lookup(overrides, inputs[i].capture.pat.sym).None?)
  {
    ForwardedSelect(overrides, inputs);
    Seqs.KeptIndicesIncreasing(BindParams(inputs).value, NotOverridden(overrides));
    ForwardedPositionsExact(overrides, inputs);
  }

  /** The k-th shim parameter is the capture of the parameter at the k-th forwarded position. */
  lemma ForwardedSelect(overrides: seq<Override>, inputs: seq<FnArg>)
    requires BindParams(inputs).Success?
    ensures |Forwarded(overrides, BindParams(inputs).value)| == |ForwardedPositions(overrides, inputs)|
    ensures forall k :: 0 <= k < |ForwardedPositions(overrides, inputs)| ==>
              ForwardedPositions(overrides, inputs)[k] < |inputs|
              && inputs[ForwardedPositions(overrides, inputs)[k]] == Captured(Forwarded(overrides, BindParams(inputs).value)[k])
  {
    var bs := BindParams(inputs).value;
    var keep := NotOverridden(overrides);
    var idx := ForwardedPositions(overrides, inputs);
    var kept := Seqs.Filter(bs, keep);
    var fwd := Forwarded(overrides, bs);
    Seqs.KeptIndicesSelect(bs, keep);
    forall k | 0 <= k < |idx|
      ensures idx[k] < |inputs| && inputs[idx[k]] == Captured(fwd[k])
    {
      assert fwd[k] == kept[k].capture;
      assert kept[k] == bs[idx[k]];
      assert bs[idx[k]] == Bind(inputs[idx[k]]).value;
    }
  }

  /** A parameter's position is forwarded exactly when no override names the parameter. */
  lemma ForwardedPositionsExact(overrides: seq<Override>, inputs: seq<FnArg>)
    requires BindParams(inputs).Success?
    ensures forall i :: 0 <= i < |inputs| ==>
              (i in ForwardedPositions(overrides, inputs) <==> Lookup(overrides, inputs[i].capture.pat.sym).None?)
  {
    var bs := BindParams(inputs).value;
    var keep := NotOverridden(overrides);
    Seqs.KeptIndicesExact(bs, keep);
    forall i | 0 <= i < |inputs|
      ensures i in ForwardedPositions(overrides, inputs) <==> Lookup(overrides, inputs[i].capture.pat.sym).None?
    {
      assert bs[i] == Bind(inputs[i]).value;
      assert keep(bs[i]) == Lookup(overrides, bs[i].ident).None?;
    }
  }

  /** An override appended after the others changes no lookup of a different name. */
  lemma {:induction false} LookupAppendOther(overrides: seq<Override>, o: Override, name: Sym)
    requires o.0 != name || Lookup(overrides, name).Some?
    ensures Lookup(overrides + [o], name) == Lookup(overrides, name)
  {
    if overrides != [] {
      assert (overrides + [o])[1..] == overrides[1..] + [o];
      if overrides[0].0 != name {
        LookupAppendOther(overrides[1..], o, name);
      }
    }
  }

  /**
    Appending an override that no forwarded-or-overridden parameter could
    read, because its name is already overridden or names no parameter,
    leaves the shim's parameters and call arguments unchanged.
   */
  lemma AppendOverrideNoEffect(overrides: seq<Override>, o: Override, bs: seq<Binding>)
    requires forall i :: 0 <= i < |bs| ==> bs[i].ident != o.0 || Lookup(overrides, o.0).Some?
    ensures Forwarded(overrides + [o], bs) == Forwarded(overrides, bs)
    ensures CallArgs(overrides + [o], bs) == CallArgs(overrides, bs)
  {
    forall i | 0 <= i < |bs|
      ensures Lookup(overrides + [o], bs[i].ident) == Lookup(overrides, bs[i].ident)
    {
      LookupAppendOther(overrides, o, bs[i].ident);
    }
    Seqs.FilterCongruent(bs, NotOverridden(overrides + [o]), NotOverridden(overrides));
  }
}
