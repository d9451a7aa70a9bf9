/** The token buffer that quoting writes into, and the adaptor that writes a list into it. */
module Append {
  import opened Syntax
  import Seqs

  /** An output token buffer that grows only at its end. */
  class Tokens {
    var stream: seq<Token>

    constructor ()
      ensures stream == []
    {
      stream := [];
    }
  }

  /** Writes every item's tokens at the end of `tokens`, in iteration order. */
  method ToTokens<T>(items: seq<T>, render: T -> seq<Token>, tokens: Tokens)
    modifies tokens
    ensures tokens.stream == old(tokens.stream) + Seqs.Flatten(items, render)
  {
    for i := 0 to |items|
      invariant tokens.stream == old(tokens.stream) + Seqs.Flatten(items[..i], render)
    {
      assert items[..i + 1] == items[..i] + [items[i]];
      Seqs.FlattenAppend(items[..i], [items[i]], render);
      assert Seqs.Flatten([items[i]], render) == render(items[i]);
      tokens.stream := tokens.stream + render(items[i]);
    }
    assert items[..|items|] == items;
  }
}
