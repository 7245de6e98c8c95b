/** What all parts of the model share. */
module Basics {
  datatype Option<+T> = None | Some(value: T)

  type Byte = b: int | 0 <= b < 256

  lemma Assoc<T>(a: seq<T>, b: seq<T>, c: seq<T>)
    ensures a + (b + c) == (a + b) + c
  {
  }

  lemma Split3<T>(a: seq<T>, b: seq<T>, c: seq<T>)
    ensures ((a + b) + c)[..|a|] == a && ((a + b) + c)[|a|..] == b + c
  {
  }

  /** Every `q` in `s` written twice: how quoted text of SQL and CSV carries its own quote. */
  function Doubled(s: string, q: char): string {
    if s == [] then [] else (if s[0] == q then [q, q] else [s[0]]) + Doubled(s[1..], q)
  }

  lemma {:induction false} DoubledAppend(s: string, ch: char, q: char)
    ensures Doubled(s + [ch], q) == Doubled(s, q) + (if ch == q then [q, q] else [ch])
  {
    if s == [] {
      assert s + [ch] == [ch] && [ch][1..] == [];
    } else {
      DoubledAppend(s[1..], ch, q);
      assert (s + [ch])[1..] == s[1..] + [ch];
    }
  }

  function Count(s: string, ch: char): nat {
    if s == [] then 0 else (if s[0] == ch then 1 else 0) + Count(s[1..], ch)
  }

  lemma {:induction false} CountConcat(a: string, b: string, ch: char)
    ensures Count(a + b, ch) == Count(a, ch) + Count(b, ch)
  {
    if a == [] {
      assert a + b == b;
    } else {
      CountConcat(a[1..], b, ch);
      assert (a + b)[1..] == a[1..] + b;
    }
  }
}
