/** Sequence vocabulary shared by the models: concatenation, reversal, joining and splitting. */
module Lists {

  /** For use where the surrounding facts make sequence extensionality expensive. */
  lemma ConcatAssoc<T>(a: seq<T>, b: seq<T>, c: seq<T>)
    ensures a + (b + c) == a + b + c
  {
  }

  lemma ConcatRegroup<T>(a: seq<T>, b: seq<T>, c: seq<T>, d: seq<T>)
    ensures a + (b + c + d) == a + b + c + d
  {
  }

  lemma ConcatPair<T>(pre: seq<T>, e: seq<T>, tail: seq<T>, rest: seq<T>)
    ensures pre + (e + tail) + rest == pre + e + (tail + rest)
    ensures pre + e + tail + rest == pre + e + (tail + rest)
  {
  }

  lemma HeadTail<T>(s: seq<T>)
    requires s != []
    ensures [s[0]] + s[1..] == s
  {
  }

  lemma ConcatSpread<T>(pre: seq<T>, a: seq<T>, e: seq<T>, b: seq<T>, post: seq<T>)
    ensures pre + (a + e + b) + post == (pre + a) + e + (b + post)
  {
  }

  lemma DropConcat<T>(a: seq<T>, b: seq<T>, i: nat)
    requires i <= |a|
    ensures (a + b)[i..] == a[i..] + b
  {
  }

  lemma LastOfAppend<T>(a: seq<T>, x: T, y: T)
    ensures (a + [x])[|a| := y] == a + [y] && (a + [x])[..|a|] == a && (a + [x])[|a|] == x
  {
  }

  lemma SliceOfConcat<T>(a: seq<T>, b: seq<T>, i: nat, j: nat)
    requires i <= j <= |a|
    ensures (a + b)[i..j] == a[i..j]
  {
  }

  lemma SliceOfTail<T>(s: seq<T>, i: nat, j: nat)
    requires i <= j <= |s|
    ensures s[i..][..j - i] == s[i..j]
  {
  }

  lemma TailOfTail<T>(s: seq<T>, i: nat, j: nat)
    requires i <= j <= |s|
    ensures s[i..][j - i..] == s[j..]
  {
  }

  lemma ConcatEmpty<T>(a: seq<T>)
    ensures a + [] == a
  {
  }

  lemma PrefixSplit<T>(p: seq<T>, s: seq<T>)
    requires p <= s
    ensures p + s[|p|..] == s
  {
  }

  lemma TailStep<T>(s: seq<T>, i: nat)
    requires i < |s|
    ensures [s[i]] + s[i + 1..] == s[i..]
  {
  }

  lemma Middle<T>(pre: seq<T>, e: seq<T>, rest: seq<T>)
    ensures (pre + e + rest)[|pre|..|pre| + |e|] == e
    ensures forall k :: 0 <= k < |e| ==> (pre + e + rest)[|pre| + k] == e[k]
    ensures (pre + e + rest)[|pre| + |e|..] == rest
    ensures (pre + e + rest)[..|pre|] == pre
  {
  }

  function Flatten<T>(ss: seq<seq<T>>): (r: seq<T>) {
    if ss == [] then [] else ss[0] + Flatten(ss[1..])
  }

  function Reversed<T>(s: seq<T>): (r: seq<T>)
    ensures |r| == |s|
  {
    seq(|s|, i requires 0 <= i < |s| => s[|s| - 1 - i])
  }

  lemma {:induction false} FlattenConcat<T>(a: seq<seq<T>>, b: seq<seq<T>>)
    ensures Flatten(a + b) == Flatten(a) + Flatten(b)
  {
    if a == [] {
      assert a + b == b;
    } else {
      FlattenConcat(a[1..], b);
      DropConcat(a, b, 1);
      ConcatAssoc(a[0], Flatten(a[1..]), Flatten(b));
    }
  }

  /** Element i in its place. */
  lemma FlattenAt<T>(ss: seq<seq<T>>, i: nat)
    requires i < |ss|
    ensures Flatten(ss) == Flatten(ss[..i]) + ss[i] + Flatten(ss[i + 1..])
  {
    FlattenConcat(ss[..i], ss[i..]);
    assert ss[..i] + ss[i..] == ss;
    FlattenTail(ss, i);
    ConcatAssoc(Flatten(ss[..i]), ss[i], Flatten(ss[i + 1..]));
  }

  lemma FlattenTail<T>(ss: seq<seq<T>>, i: nat)
    requires i < |ss|
    ensures Flatten(ss[i..]) == ss[i] + Flatten(ss[i + 1..])
  {
    assert ss[i..][1..] == ss[i + 1..];
  }

  /** Reversing a list that gained an element at its front or at its end. */
  lemma ReversedEnds<T>(s: seq<T>, x: T)
    ensures Reversed([x] + s) == Reversed(s) + [x]
    ensures Reversed(s + [x]) == [x] + Reversed(s)
  {
  }
}
