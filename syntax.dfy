/**
  The syntax the `assert_instr` attribute macro receives and emits, abstracted
  from the token trees and syntax trees of the compiler's macro interface.
  Types, function bodies and attribute arguments stay opaque token sequences;
  only the parts the macro inspects have structure.
 */
module Syntax {

  /** The text of an identifier (`Ident::sym`). */
  type Sym = string

  datatype Delimiter = Parenthesis | Bracket | Brace

  /** A token tree: identifiers, punctuation, literals and delimited groups. */
  datatype Token =
    | Ident(sym: Sym)
    | Punct(ch: char)
    | Literal(text: string)
    | Group(delim: Delimiter, stream: seq<Token>)

  /**
    An expression of one token tree: a bare path (an identifier), a literal,
    or a delimited group such as `(1)`, `[1, 2]` or `{ x }`, kept opaque.
   */
  datatype Expr = PathExpr(sym: Sym) | LitExpr(text: string) | GroupExpr(delim: Delimiter, stream: seq<Token>)

  /**
    A binding pattern: an identifier pattern, whose `ref`/`mut` markers and
    `@ subpattern` stay opaque in `mods` (empty for a plain `a`), or any other
    pattern (tuple, struct, wildcard, ...).
   */
  datatype Pat = IdentPat(sym: Sym, mods: seq<Token>) | OtherPat(tokens: seq<Token>)

  datatype Type = Type(tokens: seq<Token>)

  /** A parameter `pat: ty`. */
  datatype ArgCaptured = ArgCaptured(pat: Pat, ty: Type)

  /** The kinds of function parameter: receivers, captured bindings and the rest. */
  datatype FnArg =
    | SelfRef
    | SelfValue
    | Captured(capture: ArgCaptured)
    | Inferred(pat: Pat)
    | Ignored(ty: Type)

  datatype ReturnType = DefaultReturn | Returns(ty: Type)

  /** An attribute path `first::rest...`; a parsed path always has a first segment. */
  datatype Path = Path(first: Sym, rest: seq<Sym>)

  /** An outer attribute `#[path tts]`. */
  datatype Attribute = Attribute(path: Path, tts: seq<Token>)

  /** A function item: its attributes, name, parameters, return type and body. */
  datatype ItemFn = ItemFn(attrs: seq<Attribute>, ident: Sym, inputs: seq<FnArg>, output: ReturnType, block: seq<Token>)

  /** The item the attribute is attached to. */
  datatype Item = Fn(func: ItemFn) | OtherItem(tokens: seq<Token>)

  /** The reasons the expansion aborts; each is a distinct panic in the macro. */
  datatype Error =
    | MalformedAttribute  // the arguments are not `(instr, name = expr, ...)`
    | NotAFunction        // the item is not a function
    | ArgumentHasPattern  // a parameter is not a captured binding
    | ArgumentNotBare     // a captured parameter's pattern is not an identifier pattern
}
