/** Facts about cutting and joining sequences that the loops over lists rely on. */
module Sequences {

  /** Deleting element `i` leaves what was before it and what was after it. */
  lemma Delete<T>(s: seq<T>, i: nat)
    requires i < |s|
    ensures var cut := s[..i] + s[i + 1..];
            cut[..i] == s[..i] && cut[i..] == s[i..][1..]
    ensures s[i..][0] == s[i] && s[i..][1..] == s[i + 1..]
  {
  }

  /** Passing element `i` moves it from the rest to the part before. */
  lemma Pass<T>(s: seq<T>, i: nat, t: seq<T>)
    requires i < |s|
    ensures s[..i] + ([s[i]] + t) == s[..i + 1] + t
  {
  }

  lemma Associate<T>(a: seq<T>, b: seq<T>, c: seq<T>)
    ensures a + (b + c) == (a + b) + c
  {
  }

  lemma CutAt<T>(a: seq<T>, b: seq<T>)
    ensures (a + b)[..|a|] == a && (a + b)[|a|..] == b
  {
  }

  /** The pieces one after the other. */
  function Join<T>(pieces: seq<seq<T>>): seq<T>
  {
    if pieces == [] then [] else pieces[0] + Join(pieces[1..])
  }
}
