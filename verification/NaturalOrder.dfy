/**
 The order of part names (`natural_cmp`, src/multi_part.rs): digit runs compare as numbers. The loop is
 proved to be the lexicographic order on tokens, and that order to be total.
 */
module NaturalOrder {
  import opened Basics
  import opened Sorting

  const U128_MAX: int := 0xFFFF_FFFF_FFFF_FFFF_FFFF_FFFF_FFFF_FFFF

  datatype Ordering = Less | Equal | Greater {
    function Flip(): Ordering {
      match this
      case Less => Greater
      case Equal => Equal
      case Greater => Less
    }

    /** `Ordering::then`. */
    function Then(other: Ordering): Ordering {
      if Equal? then other else this
    }
  }

  function Cmp(a: int, b: int): Ordering {
    if a < b then Less else if a == b then Equal else Greater
  }

  predicate IsDigit(c: char) {
    '0' <= c <= '9'
  }

  predicate AllDigits(s: string) {
    forall i :: 0 <= i < |s| ==> IsDigit(s[i])
  }

  /** `c.to_digit(10).unwrap_or(0)`. */
  function DigitValue(c: char): nat {
    if IsDigit(c) then c as int - '0' as int else 0
  }

  /** The number a digit string spells. */
  function Decimal(s: string): nat {
    if s == "" then 0 else Decimal(s[..|s| - 1]) * 10 + DigitValue(s[|s| - 1])
  }

  /** How many digits a string starts with. */
  function DigitRun(s: string): (n: nat)
    ensures n <= |s| && AllDigits(s[..n])
    ensures n < |s| ==> !IsDigit(s[n])
    ensures s != "" && IsDigit(s[0]) ==> n > 0
  {
    if s == "" || !IsDigit(s[0]) then 0
    else
      var n := DigitRun(s[1..]);
      assert s[..n + 1] == [s[0]] + s[1..][..n];
      n + 1
  }

  // ----- tokens -----

  /** A maximal digit run by value and width, or any other character by itself. */
  datatype Token = Number(value: nat, width: nat) | Letter(c: char)

  /** A run's value saturates at the largest 128-bit number. */
  function NumberOf(run: string): Token {
    Number(Min(U128_MAX, Decimal(run)), |run|)
  }

  function Tokens(s: string): seq<Token>
    decreases |s|
  {
    if s == "" then []
    else if IsDigit(s[0]) then [NumberOf(s[..DigitRun(s)])] + Tokens(s[DigitRun(s)..])
    else [Letter(s[0])] + Tokens(s[1..])
  }

  function TokenCmp(a: Token, b: Token): Ordering {
    match (a, b)
    case (Number(v, w), Number(v', w')) => Cmp(v, v').Then(Cmp(w, w'))
    case (Letter(c), Letter(c')) => Cmp(c as int, c' as int)
    case (Number(_, _), Letter(c)) => if c < '0' then Greater else Less
    case (Letter(c), Number(_, _)) => if c < '0' then Less else Greater
  }

  /** Lexicographic, a proper prefix coming first. */
  function ListCmp(a: seq<Token>, b: seq<Token>): Ordering {
    if a == [] && b == [] then Equal
    else if a == [] then Less
    else if b == [] then Greater
    else TokenCmp(a[0], b[0]).Then(ListCmp(a[1..], b[1..]))
  }

  function NaturalOrdering(a: string, b: string): Ordering {
    ListCmp(Tokens(a), Tokens(b))
  }

  // ----- the loop -----

  lemma DigitsSnoc(s: string, i: nat, j: nat)
    requires i <= j < |s| && AllDigits(s[i..j]) && IsDigit(s[j])
    ensures AllDigits(s[i..j + 1])
    ensures Decimal(s[i..j + 1]) == Decimal(s[i..j]) * 10 + DigitValue(s[j])
  {
    assert s[i..j + 1] == s[i..j] + [s[j]];
    assert s[i..j + 1][..j - i] == s[i..j];
  }

  method TakeDigits(s: string, from: nat) returns (value: nat, width: nat)
    requires from <= |s|
    ensures width == DigitRun(s[from..])
    ensures value == Min(U128_MAX, Decimal(s[from..from + width]))
  {
    value, width := 0, 0;
    while from + width < |s| && IsDigit(s[from + width])
      invariant from + width <= |s|
      invariant AllDigits(s[from..from + width])
      invariant value == Min(U128_MAX, Decimal(s[from..from + width]))
    {
      DigitsSnoc(s, from, from + width);
      value := Min(U128_MAX, value * 10);
      value := Min(U128_MAX, value + DigitValue(s[from + width]));
      width := width + 1;
    }
    assert s[from..][..width] == s[from..from + width];
    RunIs(s[from..], width);
  }

  lemma {:induction false} RunIs(s: string, n: nat)
    requires n <= |s| && AllDigits(s[..n])
    requires n < |s| ==> !IsDigit(s[n])
    ensures DigitRun(s) == n
  {
    if n > 0 {
      assert IsDigit(s[..n][0]);
      assert s[1..][..n - 1] == s[..n][1..];
      RunIs(s[1..], n - 1);
    }
  }

  lemma TokensStep(s: string, i: nat)
    requires i < |s|
    ensures IsDigit(s[i]) ==>
      var n := DigitRun(s[i..]);
      n > 0 && i + n <= |s| && Tokens(s[i..]) == [NumberOf(s[i..i + n])] + Tokens(s[i + n..])
    ensures !IsDigit(s[i]) ==> Tokens(s[i..]) == [Letter(s[i])] + Tokens(s[i + 1..])
  {
    var rest := s[i..];
    var n := DigitRun(rest);
    assert rest[..n] == s[i..i + n] && rest[n..] == s[i + n..] && rest[1..] == s[i + 1..];
  }

  lemma RunHead(a: string, i: nat, value: nat, width: nat)
    requires i < |a| && IsDigit(a[i]) && width == DigitRun(a[i..])
    requires i + width <= |a| && value == Min(U128_MAX, Decimal(a[i..i + width]))
    ensures width > 0 && Tokens(a[i..]) == [Number(value, width)] + Tokens(a[i + width..])
  {
    TokensStep(a, i);
  }

  lemma HeadsCompared(x: Token, xs: seq<Token>, y: Token, ys: seq<Token>)
    ensures ListCmp([x] + xs, [y] + ys) == TokenCmp(x, y).Then(ListCmp(xs, ys))
  {
    assert ([x] + xs)[1..] == xs && ([y] + ys)[1..] == ys;
  }

  lemma RunsCompared(a: string, av: nat, aw: nat, a': string, b: string, bv: nat, bw: nat, b': string)
    requires Tokens(a) == [Number(av, aw)] + Tokens(a')
    requires Tokens(b) == [Number(bv, bw)] + Tokens(b')
    ensures ListCmp(Tokens(a), Tokens(b)) == Cmp(av, bv).Then(Cmp(aw, bw)).Then(ListCmp(Tokens(a'), Tokens(b')))
  {
    HeadsCompared(Number(av, aw), Tokens(a'), Number(bv, bw), Tokens(b'));
  }

  lemma OneAtLetter(a: string, i: nat, b: string, j: nat)
    requires i < |a| && j < |b| && !(IsDigit(a[i]) && IsDigit(b[j]))
    ensures var order := Cmp(a[i] as int, b[j] as int);
      ListCmp(Tokens(a[i..]), Tokens(b[j..])) ==
        if order.Equal? then ListCmp(Tokens(a[i + 1..]), Tokens(b[j + 1..])) else order
  {
    TokensStep(a, i);
    TokensStep(b, j);
  }

  lemma OneAtEnd(a: string, i: nat, b: string, j: nat)
    requires i <= |a| && j <= |b| && (i == |a| || j == |b|)
    ensures ListCmp(Tokens(a[i..]), Tokens(b[j..])) ==
      if i == |a| && j == |b| then Equal else if i == |a| then Less else Greater
  {
    if i < |a| {
      TokensStep(a, i);
    } else if j < |b| {
      TokensStep(b, j);
    }
  }

  /** A digit run taken is the first token of what is left. */
  method TakeNumber(s: string, i: nat) returns (value: nat, width: nat)
    requires i < |s| && IsDigit(s[i])
    ensures 0 < width <= |s| - i
    ensures Tokens(s[i..]) == [Number(value, width)] + Tokens(s[i + width..])
  {
    value, width := TakeDigits(s, i);
    RunHead(s, i, value, width);
  }

  /** Compares two digit runs by value, then by width, so that `01` and `1` do not tie. */
  method CompareRuns(a: string, i: nat, b: string, j: nat) returns (order: Ordering, i': nat, j': nat)
    requires i < |a| && j < |b| && IsDigit(a[i]) && IsDigit(b[j])
    ensures i < i' <= |a| && j < j' <= |b|
    ensures ListCmp(Tokens(a[i..]), Tokens(b[j..])) == order.Then(ListCmp(Tokens(a[i'..]), Tokens(b[j'..])))
  {
    var av, aw := TakeNumber(a, i);
    var bv, bw := TakeNumber(b, j);
    RunsCompared(a[i..], av, aw, a[i + aw..], b[j..], bv, bw, b[j + bw..]);
    order := Cmp(av, bv).Then(Cmp(aw, bw));
    i', j' := i + aw, j + bw;
  }

  /** The comparison loop computes the order on tokens. */
  method NaturalCmp(a: string, b: string) returns (r: Ordering)
    ensures r == NaturalOrdering(a, b)
  {
    var i: nat, j: nat := 0, 0;
    assert a[0..] == a && b[0..] == b;
    ghost var whole := NaturalOrdering(a, b);
    while i < |a| && j < |b|
      invariant i <= |a| && j <= |b|
      invariant whole == ListCmp(Tokens(a[i..]), Tokens(b[j..]))
      decreases |a| - i
    {
      var order, i', j' := Equal, i + 1, j + 1;
      if IsDigit(a[i]) && IsDigit(b[j]) {
        order, i', j' := CompareRuns(a, i, b, j);
      } else {
        OneAtLetter(a, i, b, j);
        order := Cmp(a[i] as int, b[j] as int);
      }
      if order != Equal {
        return order;
      }
      i, j := i', j';
    }
    OneAtEnd(a, i, b, j);
    r := if i == |a| && j == |b| then Equal else if i == |a| then Less else Greater;
  }

  // ----- the order is total -----

  /** The lists agree up to `k`, where the first ends or holds the smaller token. */
  predicate FirstDifference(a: seq<Token>, b: seq<Token>, k: nat) {
    && k <= |a| && k < |b| && a[..k] == b[..k]
    && (k == |a| || TokenCmp(a[k], b[k]).Less?)
  }

  lemma DifferenceAtHead(a: seq<Token>, b: seq<Token>, k: nat)
    requires a != [] && b != [] && FirstDifference(a, b, k)
    ensures !TokenCmp(a[0], b[0]).Greater?
  {
    if k > 0 {
      assert a[0] == a[..k][0] == b[..k][0] == b[0];
    }
  }

  lemma DifferenceInTail(a: seq<Token>, b: seq<Token>, k: nat)
    requires a != [] && b != [] && a[0] == b[0]
    ensures !FirstDifference(a, b, 0)
    ensures FirstDifference(a, b, k + 1) <==> FirstDifference(a[1..], b[1..], k)
  {
    if k <= |a| - 1 && k < |b| - 1 {
      assert a[..k + 1] == [a[0]] + a[1..][..k] && b[..k + 1] == [b[0]] + b[1..][..k];
      assert a[..k + 1][1..] == a[1..][..k] && b[..k + 1][1..] == b[1..][..k];
    }
  }

  lemma EqualTokens(a: Token, b: Token)
    ensures TokenCmp(b, a) == TokenCmp(a, b).Flip()
    ensures TokenCmp(a, b).Equal? <==> a == b
  {
  }

  /** Less means the first difference favours the first list. */
  lemma {:induction false} LessMeansFirstDifference(a: seq<Token>, b: seq<Token>)
    ensures ListCmp(a, b).Less? <==> exists k: nat :: FirstDifference(a, b, k)
  {
    if a == [] || b == [] {
      if a == [] && b != [] {
        assert FirstDifference(a, b, 0);
      }
    } else {
      EqualTokens(a[0], b[0]);
      if TokenCmp(a[0], b[0]).Less? {
        assert FirstDifference(a, b, 0);
      } else if a[0] == b[0] {
        LessMeansFirstDifference(a[1..], b[1..]);
        if k: nat :| FirstDifference(a[1..], b[1..], k) {
          DifferenceInTail(a, b, k);
        }
        if k: nat :| FirstDifference(a, b, k) {
          DifferenceInTail(a, b, if k > 0 then k - 1 else 0);
        }
      } else if k: nat :| FirstDifference(a, b, k) {
        DifferenceAtHead(a, b, k);
      }
    }
  }

  /** Comparing the other way round gives the opposite answer, and only the same list ties. */
  lemma {:induction false} ListCmpAntisymmetric(a: seq<Token>, b: seq<Token>)
    ensures ListCmp(b, a) == ListCmp(a, b).Flip()
    ensures ListCmp(a, b).Equal? <==> a == b
  {
    if a != [] && b != [] {
      EqualTokens(a[0], b[0]);
      ListCmpAntisymmetric(a[1..], b[1..]);
      assert a == [a[0]] + a[1..] && b == [b[0]] + b[1..];
    }
  }

  /** A letter of the tokens of a string is never a digit. */
  predicate Proper(t: Token) {
    t.Letter? ==> !IsDigit(t.c)
  }

  predicate AllProper(s: seq<Token>) {
    forall i :: 0 <= i < |s| ==> Proper(s[i])
  }

  lemma {:induction false} TokensProper(s: string)
    ensures AllProper(Tokens(s))
    decreases |s|
  {
    if s != "" {
      TokensProper(if IsDigit(s[0]) then s[DigitRun(s)..] else s[1..]);
    }
  }

  lemma TokenTransitive(a: Token, b: Token, c: Token)
    requires Proper(a) && Proper(b) && Proper(c)
    requires !TokenCmp(a, b).Greater? && !TokenCmp(b, c).Greater?
    ensures !TokenCmp(a, c).Greater?
    ensures TokenCmp(a, c).Equal? ==> TokenCmp(a, b).Equal? && TokenCmp(b, c).Equal?
  {
  }

  lemma {:induction false} ListTransitive(a: seq<Token>, b: seq<Token>, c: seq<Token>)
    requires AllProper(a) && AllProper(b) && AllProper(c)
    requires !ListCmp(a, b).Greater? && !ListCmp(b, c).Greater?
    ensures !ListCmp(a, c).Greater?
  {
    if a != [] && b != [] && c != [] {
      TokenTransitive(a[0], b[0], c[0]);
      if TokenCmp(a[0], c[0]).Equal? {
        ListTransitive(a[1..], b[1..], c[1..]);
      }
    }
  }

  predicate NaturalLe(a: string, b: string) {
    !NaturalOrdering(a, b).Greater?
  }

  /** Any two names compare, and the comparison is transitive: sorting by it is well defined. */
  lemma NaturalIsTotalPreorder()
    ensures Total(NaturalLe) && Transitive(NaturalLe)
  {
    forall a, b
      ensures NaturalLe(a, b) || NaturalLe(b, a)
    {
      ListCmpAntisymmetric(Tokens(a), Tokens(b));
    }
    forall a, b, c | NaturalLe(a, b) && NaturalLe(b, c)
      ensures NaturalLe(a, c)
    {
      TokensProper(a);
      TokensProper(b);
      TokensProper(c);
      ListTransitive(Tokens(a), Tokens(b), Tokens(c));
    }
  }

  // ----- when only identical names tie -----

  /** No digit run of the name reaches the largest 128-bit number. */
  predicate Precise(s: string) {
    forall t :: t in Tokens(s) && t.Number? ==> t.value < U128_MAX
  }

  lemma {:induction false} SameDigits(a: string, b: string)
    requires |a| == |b| && AllDigits(a) && AllDigits(b)
    requires Decimal(a) == Decimal(b)
    ensures a == b
  {
    if a != "" {
      var n := |a| - 1;
      assert AllDigits(a[..n]) && AllDigits(b[..n]);
      SameDigits(a[..n], b[..n]);
      assert a == a[..n] + [a[n]] && b == b[..n] + [b[n]];
    }
  }

  lemma {:induction false} PreciseTokensSpell(a: string, b: string)
    requires Precise(a) && Tokens(a) == Tokens(b)
    ensures a == b
    decreases |a|
  {
    if a != "" {
      assert b != "";
      var n, m := DigitRun(a), DigitRun(b);
      assert Tokens(a)[0] == Tokens(b)[0];
      TokensProperAt(a);
      TokensProperAt(b);
      if IsDigit(a[0]) {
        assert Tokens(a)[0] in Tokens(a);
        SameDigits(a[..n], b[..m]);
        assert Tokens(a)[1..] == Tokens(a[n..]) && Tokens(b)[1..] == Tokens(b[m..]);
        PreciseTail(a, n);
        PreciseTokensSpell(a[n..], b[m..]);
        assert a == a[..n] + a[n..] && b == b[..m] + b[m..];
      } else {
        assert Tokens(a)[1..] == Tokens(a[1..]) && Tokens(b)[1..] == Tokens(b[1..]);
        PreciseTail(a, 1);
        PreciseTokensSpell(a[1..], b[1..]);
        assert a == [a[0]] + a[1..] && b == [b[0]] + b[1..];
      }
    }
  }

  lemma TokensProperAt(s: string)
    requires s != ""
    ensures Tokens(s) != [] && (Tokens(s)[0].Number? <==> IsDigit(s[0]))
  {
  }

  lemma PreciseTail(s: string, n: nat)
    requires Precise(s) && 0 < n <= |s| && Tokens(s) != [] && Tokens(s)[1..] == Tokens(s[n..])
    ensures Precise(s[n..])
  {
    forall t | t in Tokens(s[n..]) && t.Number?
      ensures t.value < U128_MAX
    {
      assert t in Tokens(s)[1..];
      assert t in Tokens(s);
    }
  }

  /** Another digit run of the same width that saturates too. */
  function OtherRun(run: string): (r: string)
    requires run != ""
    ensures |r| == |run| && r != run
  {
    run[|run| - 1 := if run[|run| - 1] == '9' then '8' else '9']
  }

  lemma OtherRunTies(run: string)
    requires run != "" && AllDigits(run) && Decimal(run) >= U128_MAX
    ensures AllDigits(OtherRun(run)) && NumberOf(OtherRun(run)) == NumberOf(run)
  {
    var n := |run| - 1;
    assert OtherRun(run)[..n] == run[..n];
    assert IsDigit(run[n]);
    assert U128_MAX % 10 == 5;
  }

  lemma TokensOfRun(run: string, rest: string)
    requires run != "" && AllDigits(run) && (rest == "" || !IsDigit(rest[0]))
    ensures Tokens(run + rest) == [NumberOf(run)] + Tokens(rest)
  {
    var s := run + rest;
    assert s[..|run|] == run && s[|run|..] == rest;
    assert forall i :: 0 <= i < |run| ==> s[i] == run[i];
    RunIs(s, |run|);
  }

  /** A name with a saturated run ties with another name. */
  lemma {:induction false} SaturatedTies(a: string) returns (b: string)
    requires !Precise(a)
    ensures b != a && Tokens(b) == Tokens(a)
    decreases |a|
  {
    assert a != "";
    var n := DigitRun(a);
    if IsDigit(a[0]) && Decimal(a[..n]) >= U128_MAX {
      b := OtherRun(a[..n]) + a[n..];
      OtherRunTies(a[..n]);
      TokensOfRun(OtherRun(a[..n]), a[n..]);
      assert b[..n] == OtherRun(a[..n]);
    } else {
      var cut := if IsDigit(a[0]) then n else 1;
      assert Tokens(a) == [Tokens(a)[0]] + Tokens(a[cut..]);
      var t :| t in Tokens(a) && t.Number? && t.value >= U128_MAX;
      assert t in Tokens(a[cut..]);
      var rest := SaturatedTies(a[cut..]);
      b := a[..cut] + rest;
      assert b[cut..] == rest && a[cut..] != rest;
      if IsDigit(a[0]) {
        if rest != "" {
          TokensProperAt(rest);
          TokensProperAt(a[cut..]);
        }
        TokensOfRun(a[..n], rest);
      } else {
        assert b[1..] == rest;
      }
    }
  }

  /** Only the name itself ties with a name exactly when none of its digit runs saturates. */
  lemma TiesOnlyWithItselfExactlyWhen(a: string)
    ensures (forall b :: NaturalOrdering(a, b).Equal? ==> a == b) <==> Precise(a)
  {
    if Precise(a) {
      forall b | NaturalOrdering(a, b).Equal?
        ensures a == b
      {
        ListCmpAntisymmetric(Tokens(a), Tokens(b));
        PreciseTokensSpell(a, b);
      }
    } else {
      var b := SaturatedTies(a);
      ListCmpAntisymmetric(Tokens(a), Tokens(b));
      assert NaturalOrdering(a, b).Equal?;
    }
  }

  // ----- short runs do not saturate -----

  function Pow10(n: nat): nat {
    if n == 0 then 1 else 10 * Pow10(n - 1)
  }

  lemma {:induction false} DecimalBound(s: string)
    ensures Decimal(s) < Pow10(|s|)
  {
    if s != "" {
      DecimalBound(s[..|s| - 1]);
    }
  }

  lemma {:induction false} Pow10Monotone(m: nat, n: nat)
    requires m <= n
    ensures Pow10(m) <= Pow10(n)
    decreases n
  {
    if m < n {
      Pow10Monotone(m, n - 1);
    }
  }

  lemma Pow10Of38()
    ensures Pow10(38) < U128_MAX
  {
    assert Pow10(10) == 10_000_000_000;
    assert Pow10(20) == 100_000_000_000_000_000_000;
    assert Pow10(30) == 1_000_000_000_000_000_000_000_000_000_000;
  }

  /** Every digit run of a name has at most `n` digits. */
  predicate RunsWithin(s: string, n: nat) {
    forall i, j :: 0 <= i <= j <= |s| && AllDigits(s[i..j]) ==> j - i <= n
  }

  lemma {:induction false} ShortRunsArePrecise(s: string)
    requires RunsWithin(s, 38)
    ensures Precise(s)
    decreases |s|
  {
    if s != "" {
      var cut := if IsDigit(s[0]) then DigitRun(s) else 1;
      if IsDigit(s[0]) {
        assert s[0..cut] == s[..cut];
        DecimalBound(s[..cut]);
        Pow10Monotone(cut, 38);
        Pow10Of38();
      }
      assert forall i, j :: 0 <= i <= j <= |s| - cut ==> s[cut..][i..j] == s[cut + i..cut + j];
      ShortRunsArePrecise(s[cut..]);
      assert Tokens(s) == [Tokens(s)[0]] + Tokens(s[cut..]);
    }
  }

  // ----- joining names -----

  lemma TokensOfLetter(c: char, rest: string)
    requires !IsDigit(c)
    ensures Tokens([c] + rest) == [Letter(c)] + Tokens(rest)
  {
    assert ([c] + rest)[1..] == rest;
  }

  /** The first token of a name, and the text it leaves. */
  lemma FirstToken(s: string) returns (head: string, rest: string)
    requires s != ""
    ensures s == head + rest && head != "" && |rest| < |s|
    ensures (AllDigits(head) && (rest != "" ==> !IsDigit(rest[0]))) || (|head| == 1 && !IsDigit(head[0]))
  {
    var n := if IsDigit(s[0]) then DigitRun(s) else 1;
    head, rest := s[..n], s[n..];
  }

  lemma RunJoin(head: string, rest: string, b: string)
    requires head != "" && AllDigits(head) && (rest != "" ==> !IsDigit(rest[0]))
    requires rest == "" ==> b == "" || !IsDigit(b[0])
    ensures Tokens(head + rest) == [NumberOf(head)] + Tokens(rest)
    ensures Tokens(head + (rest + b)) == [NumberOf(head)] + Tokens(rest + b)
  {
    TokensOfRun(head, rest);
    TokensOfRun(head, rest + b);
  }

  /** The join of two names splits no digit run. */
  predicate Joinable(a: string, b: string) {
    a == "" || b == "" || !IsDigit(b[0]) || !IsDigit(a[|a| - 1])
  }

  lemma JoinableRest(head: string, rest: string, b: string)
    requires Joinable(head + rest, b)
    ensures Joinable(rest, b)
    ensures rest == "" && head != "" && AllDigits(head) ==> b == "" || !IsDigit(b[0])
  {
    if rest == "" {
      assert head + rest == head;
    } else {
      assert (head + rest)[|head + rest| - 1] == rest[|rest| - 1];
    }
  }

  /** Names joined where no digit run is split are joined token by token. */
  lemma {:induction false} TokensJoin(a: string, b: string)
    requires Joinable(a, b)
    ensures Tokens(a + b) == Tokens(a) + Tokens(b)
    decreases |a|
  {
    if a == "" {
      assert a + b == b;
    } else {
      var head, rest := FirstToken(a);
      assert a + b == head + (rest + b);
      JoinableRest(head, rest, b);
      TokensJoin(rest, b);
      TokensJoinHead(head, rest, b);
    }
  }

  lemma TokensJoinHead(head: string, rest: string, b: string)
    requires head != "" && Joinable(head + rest, b) && Tokens(rest + b) == Tokens(rest) + Tokens(b)
    requires (AllDigits(head) && (rest != "" ==> !IsDigit(rest[0]))) || (|head| == 1 && !IsDigit(head[0]))
    ensures Tokens(head + (rest + b)) == Tokens(head + rest) + Tokens(b)
  {
    if |head| == 1 && !IsDigit(head[0]) {
      LetterJoin(head, rest, b);
    } else {
      JoinableRest(head, rest, b);
      RunJoin(head, rest, b);
    }
    Regroup([Tokens(head + rest)[0]], Tokens(rest), Tokens(b));
  }

  lemma LetterJoin(head: string, rest: string, b: string)
    requires |head| == 1 && !IsDigit(head[0])
    ensures Tokens(head + rest) == [Letter(head[0])] + Tokens(rest)
    ensures Tokens(head + (rest + b)) == [Letter(head[0])] + Tokens(rest + b)
  {
    assert head == [head[0]];
    TokensOfLetter(head[0], rest);
    TokensOfLetter(head[0], rest + b);
  }
}
