/** `getColor` of src/utils/color.ts: a user's display colour, picked from a
    fixed palette by the sum of the character codes of the user name. */
module Color {

  /** The four palette entries, in order. */
  const Palette: seq<string> := ["#f97316", "#3b82f6", "#22c55e", "#ec4899"]

  /** The sum of the character codes of `s`. */
  function CodeSum(s: string): nat
    decreases |s|
  {
    if |s| == 0 then 0 else s[0] as int + CodeSum(s[1..])
  }

  /** `getColor(name)`: the first palette entry for an empty name, otherwise
      the entry at the code sum modulo the palette size. */
  function GetColor(name: string): (c: string)
    ensures c in Palette
    ensures name == "" ==> c == Palette[0]
    ensures name != "" ==> c == Palette[CodeSum(name) % 4]
  {
    if name == "" then Palette[0] else Palette[CodeSum(name) % |Palette|]
  }

  lemma {:induction false} CodeSumConcat(a: string, b: string)
    ensures CodeSum(a + b) == CodeSum(a) + CodeSum(b)
    decreases |a|
  {
    if |a| > 0 {
      assert (a + b)[0] == a[0];
      assert (a + b)[1..] == a[1..] + b;
      CodeSumConcat(a[1..], b);
    } else {
      assert a + b == b;
    }
  }

  /** The code sum is blind to the order of the characters. */
  lemma {:induction false} CodeSumPermutation(a: string, b: string)
    requires multiset(a) == multiset(b)
    ensures CodeSum(a) == CodeSum(b)
    decreases |a|
  {
    if |a| == 0 {
      assert |b| == |multiset(b)| == 0;
    } else {
      var x := a[0];
      assert x in multiset(b);
      var j :| 0 <= j < |b| && b[j] == x;
      var rest := b[..j] + b[j + 1..];
      RemoveAt(b, j);
      assert a == [x] + a[1..];
      assert multiset(a[1..]) == multiset(a) - multiset{x};
      CodeSumPermutation(a[1..], rest);
    }
  }

  /** Taking out the character at `j` takes its code out of the sum and
      one copy of it out of the multiset. */
  lemma RemoveAt(b: string, j: nat)
    requires j < |b|
    ensures multiset(b[..j] + b[j + 1..]) == multiset(b) - multiset{b[j]}
    ensures CodeSum(b) == b[j] as int + CodeSum(b[..j] + b[j + 1..])
  {
    var p, x, q := b[..j], b[j], b[j + 1..];
    assert b[j..] == [x] + q;
    assert b == p + b[j..];
    RemoveSum(p, x, q);
    var mp, mq := multiset(p), multiset(q);
    assert multiset([x] + q) == multiset{x} + mq;
    assert multiset(b) == mp + (multiset{x} + mq);
    assert multiset(p + q) == mp + mq;
    assert mp + (multiset{x} + mq) - multiset{x} == mp + mq;
  }

  lemma RemoveSum(p: string, x: char, q: string)
    ensures CodeSum(p + ([x] + q)) == x as int + CodeSum(p + q)
  {
    assert CodeSum([x]) == x as int + CodeSum([]);
    CodeSumConcat([x], q);
    CodeSumConcat(p, [x] + q);
    CodeSumConcat(p, q);
  }

  /** Rearranging the letters of a name does not change its colour. */
  lemma ColorIgnoresOrder(a: string, b: string)
    requires multiset(a) == multiset(b)
    ensures GetColor(a) == GetColor(b)
  {
    CodeSumPermutation(a, b);
    if a == "" {
      assert |b| == |multiset(b)| == 0;
    }
  }
}
