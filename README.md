# assert_instr: a Dafny model

This project models the `#[assert_instr(instr, name = expr, ...)]` attribute
macro of the `stdsimd` test support crate
(`stdsimd-test/assert-instr-macro/src/lib.rs`). Applied to a function, the
macro re-emits the function unchanged and appends one `#[test]` function,
`assert_<fn>_<instr>`. That test asks a runtime checker whether the compiled
code of a target function contains the instruction `instr`. Without
overrides the target is the function itself. With overrides the test first
declares a shim, `<fn>_shim`. The shim takes only the parameters that no
override names. It calls the original function, passing each override's
expression in place of the parameter it names. The shim inherits the
function's `target…` attributes, such as `#[target_feature(...)]`.

Modules (one file each):

- `Wrappers`: `Option` and `Result`.
- `Syntax`: tokens, expressions, patterns, parameters, attributes, items, and
  the four aborts the model keeps (`Error`).
- `Seqs`: `Filter`, `Map` and `Flatten` over sequences, with lemmas on order
  and membership.
- `Invocation`: the `Invoc` record, its parser (`parens!`, then an
  identifier, then `many0!` of `, name = expr`), its written form, and the
  round trip in both directions.
- `Naming`: the test name and the shim name.
- `Attrs`: the filter that keeps attributes whose first path segment
  starts with `target`.
- `Append`: the token buffer (a class whose stream grows at its end) and
  `Append::to_tokens`, the loop that writes every item into it.
- `Shims`: parameter validation, override lookup (first match wins), and the
  parameter loop that builds the shim's parameter list and the call's
  argument list.
- `Macro`: the expansion as pure functions (`ExpandInvoc`,
  `Expand`), the macro as a method (`AssertInstr`), and lemmas about the
  result.

`cfg!(optimized)` is the parameter `optimized`. The item is given already
parsed, as an `Item` value.

The parameters are checked only in the branch for a non-empty override list
(lines 48-72). So a function with a destructured parameter and no overrides
expands successfully; `Macro.ExpandInvoc` states this: success holds iff the
item is a function and either there are no overrides or every parameter
binds.

## Model

| member | source | states |
|---|---|---|
| Invocation.ParseExpr | stdsimd-test/assert-instr-macro/src/lib.rs:134 | an expression is one token tree: it parses iff the token is not a lone punctuation mark, and it is written back as the same token |
| Invocation.ParseBody | stdsimd-test/assert-instr-macro/src/lib.rs:129-136 | the group's contents are accepted only when they are exactly the instruction identifier followed by the written overrides |
| Invocation.ParseInvoc | stdsimd-test/assert-instr-macro/src/lib.rs:27-28 | `syn::parse` with `parens!`: exactly one parenthesised group whose contents parse completely; its contract is carried by `ParseInvocSound` and `ParseInvocRoundTrip` |
| Invocation.ParseOverride | stdsimd-test/assert-instr-macro/src/lib.rs:131-135 | a parsed override consumed exactly four tokens: comma, name, `=`, expression |
| Invocation.ParseOverrides | stdsimd-test/assert-instr-macro/src/lib.rs:130-136 | `many0!` consumes no more than its input and stops only where no further override parses |
| Invocation.ParseOverrideSound | stdsimd-test/assert-instr-macro/src/lib.rs:131-135 | the tokens one override consumes are exactly the written form of the override it returns |
| Invocation.ParseOverridesOfTokens | stdsimd-test/assert-instr-macro/src/lib.rs:130-136 | written overrides followed by tokens that start no override parse back to the same overrides, in order, and leave those tokens |
| Invocation.ParseOverridesSound | stdsimd-test/assert-instr-macro/src/lib.rs:130-136 | the consumed prefix of the input is exactly the written form of the returned overrides |
| Invocation.ParseInvocRoundTrip | stdsimd-test/assert-instr-macro/src/lib.rs:122-141 | every invocation, with any number of overrides, written as `(instr, a = e, ...)`, parses back to the same instruction and the same overrides in order |
| Invocation.ParseInvocSound | stdsimd-test/assert-instr-macro/src/lib.rs:127-141 | the parser accepts only inputs that are exactly one parenthesised group holding the written form of the invocation it returns |
| Naming.AssertName | stdsimd-test/assert-instr-macro/src/lib.rs:43-45 | the test name is `assert_`, then the function name, then `_`, then the instruction, with nothing else |
| Naming.ShimName | stdsimd-test/assert-instr-macro/src/lib.rs:46-47 | the shim name is the function name followed by `_shim` |
| Naming.ShimNameInjective | stdsimd-test/assert-instr-macro/src/lib.rs:46-47 | distinct functions get distinct shim names |
| Naming.AssertNameInjective | stdsimd-test/assert-instr-macro/src/lib.rs:43-45 | when no instruction name contains `_`, the test name determines both the function and the instruction |
| Naming.AssertNameCollision | stdsimd-test/assert-instr-macro/src/lib.rs:43-45 | without that condition, `a_b` with `c` and `a` with `b_c` produce the same test name |
| Attrs.IsFeatureAttr | stdsimd-test/assert-instr-macro/src/lib.rs:76-85 | the `starts_with("target")` test on the first path segment; its behaviour is stated by `FeatureAttrClassification` |
| Attrs.FeatureAttrClassification | stdsimd-test/assert-instr-macro/src/lib.rs:76-85 | the match is on the prefix of the first segment only: `target_feature` and `targets` are inherited; `inline`, `targe` and `core::target_feature` are not |
| Attrs.FeatureAttrs | stdsimd-test/assert-instr-macro/src/lib.rs:74-86 | every inherited attribute is one of the function's, with a first path segment starting with `target`, and every such attribute is inherited |
| Attrs.FeatureAttrsInOrder | stdsimd-test/assert-instr-macro/src/lib.rs:74-86 | the inherited attributes are the `target…` ones at strictly increasing positions, and a position is selected iff its attribute starts with `target` |
| Append.ToTokens | stdsimd-test/assert-instr-macro/src/lib.rs:151-155 | the buffer afterwards is its old contents followed by every item's tokens in iteration order |
| Shims.Bind | stdsimd-test/assert-instr-macro/src/lib.rs:55-62 | a parameter binds iff it is captured with an identifier pattern, whatever its `ref`/`mut`/`@` modifiers, keeping its whole capture and naming it by the identifier; otherwise the error is `ArgumentNotBare` for a captured one and `ArgumentHasPattern` for any other |
| Shims.BindParams | stdsimd-test/assert-instr-macro/src/lib.rs:54-62 | validation succeeds iff every parameter is a captured binding with an identifier pattern (`mut`, `ref` and `@` forms included), and then gives one binding per parameter, in order |
| Shims.BindParamsStops | stdsimd-test/assert-instr-macro/src/lib.rs:54-62 | the first invalid parameter aborts validation, and its own error (`ArgumentHasPattern` or `ArgumentNotBare`) is the one reported |
| Shims.Lookup | stdsimd-test/assert-instr-macro/src/lib.rs:63 | `find` returns nothing iff no override has the name, and otherwise the expression of the first override with that name |
| Shims.Forwarded | stdsimd-test/assert-instr-macro/src/lib.rs:63-70 | the shim's parameter list (`inputs`) never has more entries than the function's; its order and selection are stated by `ForwardedInOrder` |
| Shims.ForwardedAllOverridden | stdsimd-test/assert-instr-macro/src/lib.rs:63-70 | when every parameter is overridden, the shim takes no parameters |
| Shims.ForwardedNoneOverridden | stdsimd-test/assert-instr-macro/src/lib.rs:63-70 | when no parameter is overridden, the shim takes every parameter, unchanged and in order |
| Shims.Argument | stdsimd-test/assert-instr-macro/src/lib.rs:63-71 | the argument for a parameter is its own identifier when no override names it, and otherwise the expression of the first override that names it |
| Shims.CallArgs | stdsimd-test/assert-instr-macro/src/lib.rs:63-71 | the call's arguments (`input_vals`) are one per parameter, in order: the first matching override's expression, else the parameter's identifier; with no overrides, every identifier |
| Shims.ForwardedSnoc | stdsimd-test/assert-instr-macro/src/lib.rs:63-70 | one more parameter extends the shim's parameter list by its capture exactly when no override names it |
| Shims.ShimInputs | stdsimd-test/assert-instr-macro/src/lib.rs:51-72 | the parameter loop fails iff validation fails, with the same error; otherwise it returns the forwarded captures and the call arguments, one per parameter |
| Shims.ForwardedInOrder | stdsimd-test/assert-instr-macro/src/lib.rs:63-70 | the shim's parameters are the captures at strictly increasing positions of the original parameters, and a position is selected iff no override names its parameter |
| Shims.ForwardedSelect | stdsimd-test/assert-instr-macro/src/lib.rs:63-70 | the k-th shim parameter is the original parameter at the k-th forwarded position |
| Shims.ForwardedPositionsExact | stdsimd-test/assert-instr-macro/src/lib.rs:63-70 | a parameter's position is forwarded iff no override names the parameter |
| Shims.LookupAppendOther | stdsimd-test/assert-instr-macro/src/lib.rs:63 | an override appended at the end changes no lookup of another name, and no lookup of a name already overridden |
| Shims.AppendOverrideNoEffect | stdsimd-test/assert-instr-macro/src/lib.rs:63-70 | an appended override that names no parameter, or repeats an earlier name, changes neither the shim's parameters nor the call's arguments |
| Macro.TestFor | stdsimd-test/assert-instr-macro/src/lib.rs:37-49 | test assembly: the name, the ignore marker and the checker's target; its contract is stated by `ExpandInvoc` |
| Macro.EmitShimAttrs | stdsimd-test/assert-instr-macro/src/lib.rs:74-90 | emitting `Append(&attrs)` into a fresh buffer yields the tokens of the `target…` attributes, one after another, in their written order |
| Macro.ExpandInvoc | stdsimd-test/assert-instr-macro/src/lib.rs:31-118 | a non-function aborts with `NotAFunction`; success iff the item is a function and either there are no overrides or every parameter has an identifier pattern; on success the item is re-emitted unchanged, the test is `assert_<fn>_<instr>`, it is ignored iff not optimized, there is a shim iff there are overrides, and the checker is called on the function or on `<fn>_shim`, with its name and the instruction; the shim returns the function's type, calls the function and inherits its `target…` attributes |
| Macro.Expand | stdsimd-test/assert-instr-macro/src/lib.rs:24-120 | expansion aborts iff the attribute does not parse, the item is not a function, or there are overrides and some parameter is not a captured identifier pattern; the first failing check gives the error; on success the item is unchanged and the test checks the parsed instruction |
| Macro.AssertInstr | stdsimd-test/assert-instr-macro/src/lib.rs:24-120 | the macro's imperative body, with its parameter loop, computes exactly `Expand` |
| Macro.FirstBadParameterReported | stdsimd-test/assert-instr-macro/src/lib.rs:54-62 | with overrides, the first parameter that is not a captured identifier pattern aborts expansion with that parameter's error |
| Macro.ShimParameters | stdsimd-test/assert-instr-macro/src/lib.rs:63-70 | the shim's parameters are exactly the parameters no override names, each as declared, in their original relative order |
| Macro.ShimArguments | stdsimd-test/assert-instr-macro/src/lib.rs:63-71 | the shim calls the function with one argument per original parameter, in order: the first matching override's expression, else the parameter's own name |
| Macro.UnusedOverrideIgnored | stdsimd-test/assert-instr-macro/src/lib.rs:63 | an override naming no parameter, appended to a non-empty override list, is silently unused: it changes nothing, including whether expansion fails |
| Macro.DuplicateOverrideIgnored | stdsimd-test/assert-instr-macro/src/lib.rs:63 | a later override repeating an earlier name is ignored |
| Macro.AddAttrParses | stdsimd-test/assert-instr-macro/src/lib.rs:128-141 | `(addl, b = 1)` parses to instruction `addl` with the single override `b = 1` |
| Macro.GroupOverrideParses | stdsimd-test/assert-instr-macro/src/lib.rs:130-136 | a delimited override value such as `b = (1)` parses as one expression |
| Macro.AddShimPlan | stdsimd-test/assert-instr-macro/src/lib.rs:54-72 | for `add(a, b)` under `b = 1`, the shim takes `a` only and passes `a, 1` |
| Macro.AddWithOverride | stdsimd-test/assert-instr-macro/src/lib.rs:27-118 | `fn add(a: i32, b: i32) -> i32` under `(addl, b = 1)` expands to `add` itself plus `assert_add_addl`, which declares `add_shim(a: i32) -> i32 { add(a, 1) }` and checks `add_shim` |
| Macro.ModifiedParameterKept | stdsimd-test/assert-instr-macro/src/lib.rs:59-70 | `fn add(mut a: i32, b: i32)` under `(addl, b = 1)` expands; the shim declares `mut a: i32` as written and passes `a, 1` |
| Macro.AddWithoutOverride | stdsimd-test/assert-instr-macro/src/lib.rs:27-118 | the same function under `(addl)` gives `assert_add_addl` checking `add` directly, with no shim |

## Left out

- Token-stream plumbing from `syn`, `quote` and `proc_macro2` is not modelled. This includes spans, the `to_string().parse()` re-lexing at line 113, and the conversions between the two `TokenStream` types.
- The item parse at line 30 ("must be attached to an item") is left out. The model takes an already parsed `Item`, so every input is an item.
- Invocation.ParseExpr: an override's expression is one token tree: an identifier, a literal or a delimited group whose contents are not checked. Multi-token expressions such as `-1`, `a + b` or `f(x)` parse in the source, but the model reports `MalformedAttribute` for them. In the other direction the model accepts single tokens that `syn::Expr` rejects, so it expands where the source aborts at line 28: a keyword or `_` as the value (`(addl, b = if)`, `(addl, b = _)`) and a group holding no expression (`(addl, b = (,))`).
- Invocation.ParseBody: `syn!(syn::Ident)` rejects Rust keywords and `_` as the instruction or an override name (so `#[assert_instr(loop)]` fails in the source); the model accepts any identifier token there.
- Generic parameters, visibility, ABI and the function body are not modelled. The `block` field carries the body as opaque tokens.
- `cfg!(optimized)` is the parameter `optimized`. The build configuration itself is external.
- The runtime checker `::stdsimd_test::assert` (lines 107-109) is external. The model records its three arguments: the target name (whose address is passed), the target name as text, and the instruction as text.
- The fixed markers `#[test]`, `#[allow(non_snake_case)]` and `unsafe` are implied by `TestFn` and `ShimFn`; they are not stored as tokens.
- Panic messages are replaced by the four `Error` values. The `unwrap()` of the re-lexing at line 113 cannot be reached in the model, which does not re-lex.
- The shim's attributes are rendered to tokens (`Macro.EmitShimAttrs`), but the rest of the generated test is kept as a `TestFn` value and not rendered.
