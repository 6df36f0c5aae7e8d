/** The verdicts a signal can carry and their order pass < warn < fail < error. */
module Verdicts {

  /** A string that is no verdict ranks with pass. */
  function Rank(v: string): nat {
    if v == "warn" then 1 else if v == "fail" then 2 else if v == "error" then 3 else 0
  }

  predicate Failing(v: string) {
    v == "fail" || v == "error"
  }

  function Worst(a: string, b: string): string {
    if Rank(b) > Rank(a) then b else a
  }

  /** `v` is the worst of the verdicts `vs`, spelled out; any other string counts as pass. */
  ghost predicate Tops(v: string, vs: set<string>) {
    if "error" in vs then v == "error"
    else if "fail" in vs then v == "fail"
    else if "warn" in vs then v == "warn"
    else v !in {"error", "fail", "warn"}
  }

  lemma TopsFrom(v: string, vs: set<string>)
    requires (v in vs || Rank(v) == 0) && forall x :: x in vs ==> Rank(x) <= Rank(v)
    ensures Tops(v, vs)
  {
    assert Rank("error") == 3 && Rank("fail") == 2 && Rank("warn") == 1;
  }

  lemma WorstTops(v: string, vs: set<string>, x: string)
    requires Tops(v, vs)
    ensures Tops(Worst(v, x), vs + {x}) && Tops(Worst(x, v), vs + {x})
  {}
}
