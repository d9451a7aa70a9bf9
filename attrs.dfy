/** The attributes the shim inherits from the annotated function. */
module Attrs {
  import opened Syntax
  import Seqs
  import Naming

  /** An attribute whose first path segment starts with `target` (e.g. `target_feature`). */
  predicate IsFeatureAttr(a: Attribute)
  {
    Naming.StartsWith(a.path.first, "target")
  }

  /**
    The test is a prefix match on the first path segment only: any name that
    begins with `target` is inherited, and a later `target_feature` segment is not looked at.
   */
  lemma FeatureAttrClassification(tts: seq<Token>)
    ensures IsFeatureAttr(Attribute(Path("target_feature", []), tts))
    ensures IsFeatureAttr(Attribute(Path("targets", []), tts))
    ensures !IsFeatureAttr(Attribute(Path("inline", []), tts))
    ensures !IsFeatureAttr(Attribute(Path("core", ["target_feature"]), tts))
    ensures !IsFeatureAttr(Attribute(Path("targe", []), tts))
  {
    assert "target_feature"[..6] == "target";
    assert "targets"[..6] == "target";
    assert "inline"[0] != "target"[0];
    assert "core"[0] != "target"[0];
  }

  /** The target-prefixed attributes, in their original order. */
  function FeatureAttrs(attrs: seq<Attribute>): (r: seq<Attribute>)
    ensures forall k :: 0 <= k < |r| ==> r[k] in attrs && IsFeatureAttr(r[k])
    ensures forall i :: 0 <= i < |attrs| && IsFeatureAttr(attrs[i]) ==> attrs[i] in r
  {
    Seqs.FilterMembers(attrs, IsFeatureAttr);
    Seqs.Filter(attrs, IsFeatureAttr)
  }

  /**
    The inherited attributes are exactly the target-prefixed ones, each once
    and in the order they are written on the function.
   */
  lemma FeatureAttrsInOrder(attrs: seq<Attribute>)
    ensures var idx := Seqs.KeptIndices(attrs, IsFeatureAttr);
      && |FeatureAttrs(attrs)| == |idx|
      && (forall k :: 0 <= k < |idx| ==> idx[k] < |attrs| && FeatureAttrs(attrs)[k] == attrs[idx[k]])
      && (forall k1, k2 :: 0 <= k1 < k2 < |idx| ==> idx[k1] < idx[k2])
      && (forall i :: 0 <= i < |attrs| ==> (i in idx <==> IsFeatureAttr(attrs[i])))
  {
    Seqs.FilterKeepsOrder(attrs, IsFeatureAttr);
  }

  /** The tokens `#[path tts]` of an attribute. */
  function AttrTokens(a: Attribute): seq<Token>
  {
    [Punct('#'), Group(Bracket, PathTokens(a.path) + a.tts)]
  }

  function PathTokens(p: Path): seq<Token>
  {
    [Ident(p.first)] + Seqs.Flatten(p.rest, (s: Sym) => [Punct(':'), Punct(':'), Ident(s)])
  }
}
