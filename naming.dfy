/** The names the macro derives for the generated test and the shim. */
module Naming {
  import opened Syntax

  predicate StartsWith(s: string, prefix: string)
  {
    |prefix| <= |s| && s[..|prefix|] == prefix
  }

  /** `assert_<fn>_<instr>`: the prefix, the function's name, an underscore, the instruction. */
  function AssertName(fn: Sym, instr: Sym): (r: Sym)
    ensures |r| == 8 + |fn| + |instr|
    ensures r[..7] == "assert_" && r[7..7 + |fn|] == fn && r[7 + |fn|] == '_' && r[8 + |fn|..] == instr
  {
    "assert_" + fn + "_" + instr
  }

  /** `<fn>_shim`: the function's name followed by the suffix. */
  function ShimName(fn: Sym): (r: Sym)
    ensures |r| == |fn| + 5
    ensures r[..|fn|] == fn && r[|fn|..] == "_shim"
  {
    fn + "_shim"
  }

  /** Distinct functions get distinct shims. */
  lemma ShimNameInjective(fn1: Sym, fn2: Sym)
    requires ShimName(fn1) == ShimName(fn2)
    ensures fn1 == fn2
  {
  }

  /**
    When neither instruction name contains an underscore, the test name
    determines both the function and the instruction.
   */
  lemma AssertNameInjective(fn1: Sym, instr1: Sym, fn2: Sym, instr2: Sym)
    requires '_' !in instr1 && '_' !in instr2
    requires AssertName(fn1, instr1) == AssertName(fn2, instr2)
    ensures fn1 == fn2 && instr1 == instr2
  {
  }

  /** Without that condition two different annotations can produce the same test name. */
  lemma AssertNameCollision()
    ensures AssertName("a_b", "c") == AssertName("a", "b_c")
  {
  }
}
