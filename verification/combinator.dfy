/**
 The clause combinator: one global mode folds the per-clause results of a
 row into a single pass/fail decision. There is no nesting or per-clause
 mode.
 */
module Combinator {
  import opened Base

  datatype Mode = And | Or

  /** The `filter_op` token of each mode. */
  function ModeToken(mode: Mode): string {
    match mode
    case And => "and"
    case Or => "or"
  }

  /** Reads the optional `filter_op` token; an omitted token means "and". */
  function ParseMode(token: Option<string>): (r: Option<Mode>)
    ensures token.None? ==> r == Some(And)
    ensures r.Some? && token.Some? ==> ModeToken(r.value) == token.value
    ensures r == Some(Or) <==> token == Some("or")
    ensures r.None? <==> token.Some? && token.value != "and" && token.value != "or"
  {
    match token
    case None => Some(And)
    case Some(t) => if t == "and" then Some(And) else if t == "or" then Some(Or) else None
  }

  /** Every mode is read back from its own token. */
  lemma ParseModeToken(mode: Mode)
    ensures ParseMode(Some(ModeToken(mode))) == Some(mode)
  {
  }

  /** Conjunction or disjunction of the results, folded left to right. The
      empty fold is true under And and false under Or. */
  function Combine(mode: Mode, bs: seq<bool>): (r: bool)
    ensures mode == And ==> (r <==> forall i :: 0 <= i < |bs| ==> bs[i])
    ensures mode == Or ==> (r <==> exists i :: 0 <= i < |bs| && bs[i])
  {
    if |bs| == 0 then mode == And
    else
      var rest := Combine(mode, bs[1..]);
      assert forall i :: 1 <= i < |bs| ==> bs[i] == bs[1..][i - 1];
      if mode == And then bs[0] && rest else bs[0] || rest
  }

  /** The order of the results does not matter: any permutation combines
      to the same decision. */
  lemma CombineOrderIndependent(mode: Mode, bs: seq<bool>, cs: seq<bool>)
    requires multiset(bs) == multiset(cs)
    ensures Combine(mode, bs) == Combine(mode, cs)
  {
    assert (false in bs) <==> (false in multiset(bs));
    assert (false in cs) <==> (false in multiset(cs));
    assert (true in bs) <==> (true in multiset(bs));
    assert (true in cs) <==> (true in multiset(cs));
  }
}
