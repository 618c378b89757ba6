/** Password policies and the random draw behind them.

    Both source files draw each password character independently from an
    alphabet: `random.choices(alphabet, k=n)` in password_manager.py and
    `random.choice(alphabet)` repeated `n` times in password_utils.py. The
    random source is injected as a stream of indices: the i-th draw picks
    `alphabet[draws[i]]`, and the source's contract is that each index is
    below the alphabet's size. */
module Sampling {

  /** A password policy: the alphabet characters are drawn from and how many. */
  datatype Policy = Policy(alphabet: string, length: nat)

  /** The first `n` draws of the stream are valid indices into `alphabet`. */
  predicate Fits(draws: seq<nat>, alphabet: string, n: nat) {
    n <= |draws| && forall i :: 0 <= i < n ==> draws[i] < |alphabet|
  }

  /** A password conforms to a policy: it has the policy's length and every
      character comes from the policy's alphabet. */
  predicate Conforms(p: Policy, pw: string) {
    |pw| == p.length && forall i :: 0 <= i < |pw| ==> pw[i] in p.alphabet
  }

  /** `''.join(random.choice(alphabet) for _ in range(n))`: the i-th character
      of the result is the i-th draw. */
  function Draw(alphabet: string, draws: seq<nat>, n: nat): (r: string)
    requires Fits(draws, alphabet, n)
    ensures |r| == n
    ensures forall i :: 0 <= i < n ==> r[i] == alphabet[draws[i]]
  {
    if n == 0 then [] else Draw(alphabet, draws, n - 1) + [alphabet[draws[n - 1]]]
  }

  /** Drawing under a policy. */
  function Generate(p: Policy, draws: seq<nat>): (pw: string)
    requires Fits(draws, p.alphabet, p.length)
    ensures Conforms(p, pw)
  {
    Draw(p.alphabet, draws, p.length)
  }

  /** `alphabet.index(c)`: the first position of `c`. */
  function IndexOf(alphabet: string, c: char): (k: nat)
    requires c in alphabet
    ensures k < |alphabet| && alphabet[k] == c
    ensures forall j :: 0 <= j < k ==> alphabet[j] != c
  {
    if alphabet[0] == c then 0 else 1 + IndexOf(alphabet[1..], c)
  }

  /** The draw stream that spells `pw`. */
  function IndicesOf(alphabet: string, pw: string): (draws: seq<nat>)
    requires forall i :: 0 <= i < |pw| ==> pw[i] in alphabet
    ensures Fits(draws, alphabet, |pw|) && |draws| == |pw|
    ensures forall i :: 0 <= i < |pw| ==> alphabet[draws[i]] == pw[i]
  {
    seq(|pw|, i requires 0 <= i < |pw| => IndexOf(alphabet, pw[i]))
  }

  /** Every password that conforms to a policy is the outcome of some draw
      stream: the model of the random source rules nothing out. */
  lemma GenerateReachesEveryConformingPassword(p: Policy, pw: string)
    requires Conforms(p, pw)
    ensures Fits(IndicesOf(p.alphabet, pw), p.alphabet, p.length)
    ensures Generate(p, IndicesOf(p.alphabet, pw)) == pw
  {
    var d := IndicesOf(p.alphabet, pw);
    var g := Generate(p, d);
    assert |g| == |pw|;
    forall i | 0 <= i < |pw| ensures g[i] == pw[i] {
      assert g[i] == p.alphabet[d[i]];
    }
  }

  /** Only the first `length` draws matter. */
  lemma GenerateUsesOnlyPrefix(p: Policy, d1: seq<nat>, d2: seq<nat>)
    requires Fits(d1, p.alphabet, p.length) && Fits(d2, p.alphabet, p.length)
    requires d1[..p.length] == d2[..p.length]
    ensures Generate(p, d1) == Generate(p, d2)
  {
    var g1, g2 := Generate(p, d1), Generate(p, d2);
    forall i | 0 <= i < p.length ensures g1[i] == g2[i] {
      assert d1[..p.length][i] == d2[..p.length][i];
    }
  }

  /** A password that conforms to a policy conforms to any policy of the same
      length over a larger alphabet. */
  lemma ConformsToWiderAlphabet(p: Policy, q: Policy, pw: string)
    requires Conforms(p, pw) && p.length == q.length
    requires forall c :: c in p.alphabet ==> c in q.alphabet
    ensures Conforms(q, pw)
  {
  }
}
