/** The persistent fresh-name supply of Inference.Common: one counter per
    prefix, each draw yielding the prefix followed by the counter in decimal. */
module Fresh {

  function Digit(d: nat): char
    requires d < 10
  {
    "0123456789"[d]
  }

  /** The decimal rendering of a counter, as string interpolation prints it. */
  function NatToString(n: nat): (s: string)
    ensures |s| >= 1
    ensures n >= 10 ==> |s| >= 2
  {
    if n < 10 then [Digit(n)] else NatToString(n / 10) + [Digit(n % 10)]
  }

  lemma DigitInjective(a: nat, b: nat)
    requires a < 10 && b < 10 && Digit(a) == Digit(b)
    ensures a == b
  {
  }

  /** Different counters print differently. */
  lemma {:induction false} NatToStringInjective(n: nat, m: nat)
    requires NatToString(n) == NatToString(m)
    ensures n == m
  {
    if n < 10 && m < 10 {
      DigitInjective(n, m);
    } else if n >= 10 && m >= 10 {
      var sn, sm := NatToString(n), NatToString(m);
      assert sn[|sn| - 1] == Digit(n % 10) && sm[|sm| - 1] == Digit(m % 10);
      DigitInjective(n % 10, m % 10);
      assert sn[..|sn| - 1] == NatToString(n / 10);
      assert sm[..|sm| - 1] == NatToString(m / 10);
      NatToStringInjective(n / 10, m / 10);
    }
  }

  /** Two names drawn with the same prefix are equal only if their counters are. */
  lemma SamePrefixNames(prefix: string, n: nat, m: nat)
    requires prefix + NatToString(n) == prefix + NatToString(m)
    ensures n == m
  {
    assert (prefix + NatToString(n))[|prefix|..] == NatToString(n);
    assert (prefix + NatToString(m))[|prefix|..] == NatToString(m);
    NatToStringInjective(n, m);
  }

  /** `FreshVariableStream`: the next counter of every prefix drawn so far. */
  datatype Stream = Stream(counters: map<string, nat>)

  const Empty: Stream := Stream(map[])

  /** The counter the next draw with `prefix` will print. */
  function Counter(s: Stream, prefix: string): nat
  {
    if prefix in s.counters then s.counters[prefix] else 0
  }

  /** `Next`: the new stream and the fresh name. */
  function Next(s: Stream, prefix: string): (r: (Stream, string))
    ensures r.1 == prefix + NatToString(Counter(s, prefix))
    ensures Counter(r.0, prefix) == Counter(s, prefix) + 1
    ensures forall p :: p != prefix ==> Counter(r.0, p) == Counter(s, p)
  {
    if prefix in s.counters then
      var suffix := s.counters[prefix];
      (Stream(s.counters[prefix := suffix + 1]), prefix + NatToString(suffix))
    else
      (Stream(s.counters[prefix := 1]), prefix + "0")
  }

  /** `k` successive draws with the same prefix, the names in drawing order. */
  function Draws(s: Stream, prefix: string, k: nat): (Stream, seq<string>)
  {
    if k == 0 then (s, [])
    else
      var (s1, names) := Draws(s, prefix, k - 1);
      var (s2, name) := Next(s1, prefix);
      (s2, names + [name])
  }

  /** The i-th of `k` draws prints the starting counter plus i, and the counter
      advances by `k`. */
  lemma {:induction false} DrawsNames(s: Stream, prefix: string, k: nat)
    ensures |Draws(s, prefix, k).1| == k
    ensures Counter(Draws(s, prefix, k).0, prefix) == Counter(s, prefix) + k
    ensures forall i :: 0 <= i < k ==>
      Draws(s, prefix, k).1[i] == prefix + NatToString(Counter(s, prefix) + i)
  {
    if k > 0 {
      DrawsNames(s, prefix, k - 1);
    }
  }

  /** Successive draws with one prefix never repeat a name. */
  lemma DrawsDistinct(s: Stream, prefix: string, k: nat)
    ensures forall i, j :: 0 <= i < j < |Draws(s, prefix, k).1| ==>
      Draws(s, prefix, k).1[i] != Draws(s, prefix, k).1[j]
  {
    DrawsNames(s, prefix, k);
    var names, c := Draws(s, prefix, k).1, Counter(s, prefix);
    forall i, j | 0 <= i < j < |names|
      ensures names[i] != names[j]
    {
      var a, b := prefix + NatToString(c + i), prefix + NatToString(c + j);
      assert names[i] == a && names[j] == b;
      if a == b {
        SamePrefixNames(prefix, c + i, c + j);
      }
    }
  }
}
