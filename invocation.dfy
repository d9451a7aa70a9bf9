/**
  The attribute's arguments `(instr, name = expr, ...)` and their parser:
  a parenthesised group holding the instruction's identifier followed by
  zero or more overrides `, name = expr`, with nothing left over.
 */
module Invocation {
  import opened Wrappers
  import opened Syntax
  import Seqs

  /** One argument override `name = expr`. */
  type Override = (Sym, Expr)

  /** The invocation descriptor: the expected instruction and the overrides as written. */
  datatype Invoc = Invoc(instr: Sym, args: seq<Override>)

  /**
    An expression of one token tree: anything but a lone punctuation mark
    parses, and the expression is written back as the same token.
   */
  function ParseExpr(t: Token): (r: Option<Expr>)
    ensures r.Some? <==> !t.Punct?
    ensures r.Some? ==> ExprToken(r.value) == t
  {
    match t
    case Ident(s) => Some(PathExpr(s))
    case Literal(text) => Some(LitExpr(text))
    case Group(d, ts) => Some(GroupExpr(d, ts))
    case Punct(_) => None
  }

  /** The token an expression is written as. */
  function ExprToken(e: Expr): Token
  {
    match e
    case PathExpr(s) => Ident(s)
    case LitExpr(text) => Literal(text)
    case GroupExpr(d, ts) => Group(d, ts)
  }

  /** One override `, name = expr` at the front of `ts`, and the tokens after it. */
  function ParseOverride(ts: seq<Token>): (r: Option<(Override, seq<Token>)>)
    ensures r.Some? ==> |ts| >= 4 && r.value.1 == ts[4..]
  {
    if |ts| >= 4 && ts[0] == Punct(',') && ts[1].Ident? && ts[2] == Punct('=') && ParseExpr(ts[3]).Some?
    then Some(((ts[1].sym, ParseExpr(ts[3]).value), ts[4..]))
    else None
  }

  /**
    Zero or more overrides: keeps parsing while an override parses and stops,
    without failing, at the first tokens that do not start one.
   */
  function ParseOverrides(ts: seq<Token>): (r: (seq<Override>, seq<Token>))
    ensures |r.1| <= |ts|
    ensures ParseOverride(r.1).None?
    decreases |ts|
  {
    match ParseOverride(ts)
    case None => ([], ts)
    case Some((o, rest)) =>
      var (more, left) := ParseOverrides(rest);
      ([o] + more, left)
  }

  /**
    The group's contents: the instruction identifier, the overrides, then
    nothing. What it accepts is exactly the written form of its result.
   */
  function ParseBody(ts: seq<Token>): (r: Option<Invoc>)
    ensures r.Some? ==> ts == [Ident(r.value.instr)] + Seqs.Flatten(r.value.args, OverrideTokens)
  {
    if |ts| >= 1 && ts[0].Ident? then
      var (args, left) := ParseOverrides(ts[1..]);
      ParseOverridesSound(ts[1..]);
      if left == [] then Some(Invoc(ts[0].sym, args)) else None
    else None
  }

  /** The whole attribute input: exactly one parenthesised group whose contents parse. */
  function ParseInvoc(attr: seq<Token>): Option<Invoc>
  {
    if |attr| == 1 && attr[0].Group? && attr[0].delim == Parenthesis then ParseBody(attr[0].stream)
    else None
  }

  function OverrideTokens(o: Override): seq<Token>
  {
    [Punct(','), Ident(o.0), Punct('='), ExprToken(o.1)]
  }

  /** The tokens an invocation is written as. */
  function InvocTokens(invoc: Invoc): seq<Token>
  {
    [Group(Parenthesis, [Ident(invoc.instr)] + Seqs.Flatten(invoc.args, OverrideTokens))]
  }

  /** The written overrides, followed by tokens that start no override, parse back to themselves. */
  lemma {:induction false} ParseOverridesOfTokens(args: seq<Override>, rest: seq<Token>)
    requires ParseOverride(rest).None?
    ensures ParseOverrides(Seqs.Flatten(args, OverrideTokens) + rest) == (args, rest)
  {
    if args != [] {
      var tail := Seqs.Flatten(args[1..], OverrideTokens) + rest;
      var ts := Seqs.Flatten(args, OverrideTokens) + rest;
      assert ts == OverrideTokens(args[0]) + tail;
      assert ParseExpr(ExprToken(args[0].1)) == Some(args[0].1);
      assert ParseOverride(ts) == Some((args[0], tail));
      ParseOverridesOfTokens(args[1..], rest);
      assert [args[0]] + args[1..] == args;
    } else {
      assert Seqs.Flatten(args, OverrideTokens) + rest == rest;
    }
  }

  /** One override consumes exactly the four tokens it is written as. */
  lemma ParseOverrideSound(ts: seq<Token>)
    requires ParseOverride(ts).Some?
    ensures OverrideTokens(ParseOverride(ts).value.0) + ParseOverride(ts).value.1 == ts
  {
    assert ExprToken(ParseExpr(ts[3]).value) == ts[3];
    assert ts[..4] == OverrideTokens(ParseOverride(ts).value.0);
    assert ts == ts[..4] + ts[4..];
  }

  /** What the overrides parser consumes is exactly the tokens of the overrides it returns. */
  lemma {:induction false} ParseOverridesSound(ts: seq<Token>)
    ensures Seqs.Flatten(ParseOverrides(ts).0, OverrideTokens) + ParseOverrides(ts).1 == ts
    decreases |ts|
  {
    if ParseOverride(ts).Some? {
      var (o, rest) := ParseOverride(ts).value;
      var (more, left) := ParseOverrides(rest);
      assert ParseOverrides(ts) == ([o] + more, left);
      ParseOverrideSound(ts);
      ParseOverridesSound(rest);
      assert ([o] + more)[0] == o && ([o] + more)[1..] == more;
      assert Seqs.Flatten([o] + more, OverrideTokens) == OverrideTokens(o) + Seqs.Flatten(more, OverrideTokens);
    }
  }

  /** Every invocation, written out, parses back to itself, for any number of overrides. */
  lemma ParseInvocRoundTrip(invoc: Invoc)
    ensures ParseInvoc(InvocTokens(invoc)) == Some(invoc)
  {
    var body := [Ident(invoc.instr)] + Seqs.Flatten(invoc.args, OverrideTokens);
    ParseOverridesOfTokens(invoc.args, []);
    assert Seqs.Flatten(invoc.args, OverrideTokens) + [] == body[1..];
  }

  /** The parser accepts only inputs that are an invocation written out. */
  lemma ParseInvocSound(attr: seq<Token>)
    requires ParseInvoc(attr).Some?
    ensures InvocTokens(ParseInvoc(attr).value) == attr
  {
    var body := attr[0].stream;
    var invoc := ParseInvoc(attr).value;
    assert ParseOverrides(body[1..]) == (invoc.args, []);
    ParseOverridesSound(body[1..]);
    assert body == [Ident(invoc.instr)] + Seqs.Flatten(invoc.args, OverrideTokens);
    assert attr == [Group(Parenthesis, body)];
  }
}
