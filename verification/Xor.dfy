/** Bitwise exclusive or on natural numbers. */
module Bitwise {

  function Xor(a: nat, b: nat): nat {
    if a == 0 && b == 0 then 0 else (a + b) % 2 + 2 * Xor(a / 2, b / 2)
  }

  lemma {:induction false} XorCommutes(a: nat, b: nat)
    ensures Xor(a, b) == Xor(b, a)
  {
    if a != 0 || b != 0 {
      XorCommutes(a / 2, b / 2);
    }
  }

  lemma {:induction false} XorZero(a: nat)
    ensures Xor(a, 0) == a && Xor(0, a) == a
  {
    if a != 0 {
      XorZero(a / 2);
    }
  }

  lemma Digits(low: nat, high: nat)
    requires low < 2
    ensures (low + 2 * high) % 2 == low && (low + 2 * high) / 2 == high
  {
  }

  lemma XorDigits(a: nat, b: nat)
    ensures Xor(a, b) % 2 == (a + b) % 2 && Xor(a, b) / 2 == Xor(a / 2, b / 2)
  {
    if a == 0 && b == 0 {
      assert Xor(0, 0) == 0;
    } else {
      Digits((a + b) % 2, Xor(a / 2, b / 2));
    }
  }

  lemma NestedParity(a: nat, b: nat, c: nat)
    ensures Xor(Xor(a, b), c) % 2 == (a + b + c) % 2
  {
    var x := Xor(a, b);
    assert x % 2 == (a + b) % 2 by { XorDigits(a, b); }
    assert Xor(x, c) % 2 == (x + c) % 2 by { XorDigits(x, c); }
    SumDigits(x, a + b, c);
  }

  lemma NestedHalf(a: nat, b: nat, c: nat)
    ensures Xor(Xor(a, b), c) / 2 == Xor(Xor(a / 2, b / 2), c / 2)
  {
    var x := Xor(a, b);
    assert x / 2 == Xor(a / 2, b / 2) by { XorDigits(a, b); }
    assert Xor(x, c) / 2 == Xor(x / 2, c / 2) by { XorDigits(x, c); }
  }

  lemma SumDigits(x: nat, y: nat, c: nat)
    requires x % 2 == y % 2
    ensures (x + c) % 2 == (y + c) % 2
  {
  }

  lemma {:induction false} XorAssociates(a: nat, b: nat, c: nat)
    ensures Xor(Xor(a, b), c) == Xor(a, Xor(b, c))
    decreases a + b + c
  {
    if a == 0 && b == 0 && c == 0 {
      assert Xor(0, 0) == 0;
    } else {
      XorAssociates(a / 2, b / 2, c / 2);
      NestedParity(a, b, c);
      NestedParity(b, c, a);
      NestedHalf(a, b, c);
      NestedHalf(b, c, a);
      XorCommutes(a, Xor(b, c));
      XorCommutes(a / 2, Xor(b / 2, c / 2));
    }
  }

  /** A different operand gives a different result. */
  lemma {:induction false} XorCancels(a: nat, b: nat, c: nat)
    requires Xor(a, b) == Xor(a, c)
    ensures b == c
    decreases a + b + c
  {
    if a != 0 || b != 0 || c != 0 {
      XorDigits(a, b);
      XorDigits(a, c);
      XorCancels(a / 2, b / 2, c / 2);
      SameParity(a, b, c);
    }
  }

  lemma SameParity(a: nat, b: nat, c: nat)
    requires (a + b) % 2 == (a + c) % 2
    ensures b % 2 == c % 2
  {
  }

  function XorAll(words: seq<nat>): nat {
    if words == [] then 0 else Xor(XorAll(words[..|words| - 1]), words[|words| - 1])
  }

  lemma XorOfLast(words: seq<nat>, w: nat)
    ensures XorAll(words + [w]) == Xor(XorAll(words), w)
  {
    assert (words + [w])[..|words|] == words;
  }

  lemma {:induction false} XorAppend(a: seq<nat>, b: seq<nat>)
    ensures XorAll(a + b) == Xor(XorAll(a), XorAll(b))
  {
    hide Xor;
    if b == [] {
      assert a + b == a;
      XorZero(XorAll(a));
    } else {
      var n := |b| - 1;
      XorAppend(a, b[..n]);
      assert a + b == a + b[..n] + [b[n]];
      XorOfLast(a + b[..n], b[n]);
      XorAssociates(XorAll(a), XorAll(b[..n]), b[n]);
    }
  }

  /** Changing exactly one word changes the exclusive or of all. */
  lemma OneChangedWordChangesXor(words: seq<nat>, i: nat, w: nat)
    requires i < |words| && words[i] != w
    ensures XorAll(words[i := w]) != XorAll(words)
  {
    hide Xor;
    var front, back := words[..i], words[i + 1..];
    assert words == front + [words[i]] + back && words[i := w] == front + [w] + back;
    XorAppend(front + [words[i]], back);
    XorAppend(front + [w], back);
    XorOfLast(front, words[i]);
    XorOfLast(front, w);
    if XorAll(words[i := w]) == XorAll(words) {
      XorCommutes(XorAll(front + [words[i]]), XorAll(back));
      XorCommutes(XorAll(front + [w]), XorAll(back));
      XorCancels(XorAll(back), XorAll(front + [words[i]]), XorAll(front + [w]));
      XorCancels(XorAll(front), words[i], w);
    }
  }

  function Power2(k: nat): (p: nat)
    ensures p > 0
  {
    if k == 0 then 1 else 2 * Power2(k - 1)
  }

  /** Binary digit `i` of a number. */
  function Digit(n: nat, i: nat): nat
    decreases i
  {
    if i == 0 then n % 2 else Digit(n / 2, i - 1)
  }

  /** Each digit of the result is one exactly if those of the operands differ. */
  lemma {:induction false} XorDigitwise(a: nat, b: nat, i: nat)
    ensures Digit(Xor(a, b), i) == if Digit(a, i) == Digit(b, i) then 0 else 1
    decreases i
  {
    hide Xor;
    XorDigits(a, b);
    if i > 0 {
      XorDigitwise(a / 2, b / 2, i - 1);
    }
  }

  lemma {:induction false} XorFits(a: nat, b: nat, k: nat)
    requires a < Power2(k) && b < Power2(k)
    ensures Xor(a, b) < Power2(k)
  {
    if k == 0 {
      assert Xor(0, 0) == 0;
    } else {
      XorDigits(a, b);
      XorFits(a / 2, b / 2, k - 1);
    }
  }

  lemma {:induction false} XorAllFits(words: seq<nat>, k: nat)
    requires forall w :: w in words ==> w < Power2(k)
    ensures XorAll(words) < Power2(k)
  {
    hide Xor, Power2;
    if words == [] {
      assert Power2(k) > 0;
    } else {
      var n := |words| - 1;
      assert words[n] in words && forall w :: w in words[..n] ==> w in words;
      XorAllFits(words[..n], k);
      XorFits(XorAll(words[..n]), words[n], k);
    }
  }
}
