/** Fresh names: `base`, or the first of `base_2`, `base_3`, ... that is not taken. */
module InlineNames {

  function Decimal(n: nat): (s: string)
    ensures s != "" && forall c :: c in s ==> '0' <= c <= '9'
  {
    var digit := ['0' + (n % 10) as char];
    if n < 10 then digit else Decimal(n / 10) + digit
  }

  function Undecimal(s: string): int {
    if s == "" then 0 else 10 * Undecimal(s[..|s| - 1]) + (s[|s| - 1] as int - '0' as int)
  }

  lemma {:induction false} DecimalReadsBack(n: nat)
    ensures Undecimal(Decimal(n)) == n
  {
    var d := n % 10;
    var last := '0' + d as char;
    assert last as int - '0' as int == d;
    if n < 10 {
      assert Decimal(n)[..0] == "";
    } else {
      DecimalReadsBack(n / 10);
      assert Decimal(n)[..|Decimal(n)| - 1] == Decimal(n / 10);
    }
  }

  function Numbered(base: string, i: nat): string {
    base + "_" + Decimal(i)
  }

  lemma {:induction false} NumberedDiffer(base: string, i: nat, j: nat)
    requires i != j
    ensures Numbered(base, i) != Numbered(base, j)
  {
    DecimalReadsBack(i);
    DecimalReadsBack(j);
    assert Numbered(base, i)[|base| + 1..] == Decimal(i);
    assert Numbered(base, j)[|base| + 1..] == Decimal(j);
  }

  /** How many candidates from `i` on are taken: finite because different numbers give different names. */
  ghost function Ahead(base: string, taken: set<string>, i: nat): set<string> {
    set n | n in taken && IsNumberedFrom(base, i, n)
  }

  ghost predicate IsNumberedFrom(base: string, i: nat, n: string) {
    exists k: nat :: k >= i && n == Numbered(base, k)
  }

  lemma {:induction false} OneLessAhead(base: string, taken: set<string>, i: nat)
    requires Numbered(base, i) in taken
    ensures Ahead(base, taken, i + 1) < Ahead(base, taken, i)
  {
    var here := Numbered(base, i);
    assert here in Ahead(base, taken, i);
    assert here !in Ahead(base, taken, i + 1) by {
      forall k: nat | k >= i + 1 ensures here != Numbered(base, k) {
        NumberedDiffer(base, i, k);
      }
    }
    forall n | n in Ahead(base, taken, i + 1) ensures n in Ahead(base, taken, i) {
      var k: nat :| k >= i + 1 && n == Numbered(base, k);
    }
  }

  function FirstFree(base: string, taken: set<string>, i: nat): (r: string)
    ensures r !in taken
    ensures exists k: nat :: k >= i && r == Numbered(base, k) && forall j: nat :: i <= j < k ==> Numbered(base, j) in taken
    decreases Ahead(base, taken, i)
  {
    if Numbered(base, i) !in taken then Numbered(base, i)
    else
      OneLessAhead(base, taken, i);
      FirstFree(base, taken, i + 1)
  }

  function FreshName(base: string, taken: set<string>): (r: string)
    ensures r !in taken
    ensures base !in taken ==> r == base
    ensures base in taken ==>
      exists k: nat :: k >= 2 && r == Numbered(base, k) && forall j: nat :: 2 <= j < k ==> Numbered(base, j) in taken
  {
    if base !in taken then base else FirstFree(base, taken, 2)
  }

  /** The search loop finds that name, and it ends. */
  method FindFreshName(base: string, taken: set<string>) returns (r: string)
    ensures r == FreshName(base, taken) && r !in taken
  {
    if base !in taken {
      return base;
    }
    var i := 2;
    while Numbered(base, i) in taken
      invariant i >= 2 && FirstFree(base, taken, 2) == FirstFree(base, taken, i)
      decreases Ahead(base, taken, i)
    {
      OneLessAhead(base, taken, i);
      i := i + 1;
    }
    return Numbered(base, i);
  }
}
