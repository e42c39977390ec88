/** The order-independent stream fingerprint of the three-way benchmark. */
module StreamFingerprint {
  const MODULUS: nat := 0x1_0000_0000_0000_0000_0000_0000_0000_0000_0000_0000_0000_0000_0000_0000_0000_0000

  /** Count and hash sum of a list of frames; the hash itself is a parameter. */
  function Print(hash: seq<int> -> nat, frames: seq<seq<int>>): (nat, nat) {
    if frames == [] then (0, 0)
    else
      var (count, value) := Print(hash, frames[..|frames| - 1]);
      (count + 1, (value + hash(frames[|frames| - 1])) % MODULUS)
  }

  class Fingerprint {
    var count: nat
    var value: nat
    ghost var frames: seq<seq<int>>
    ghost const hash: seq<int> -> nat

    ghost predicate Valid()
      reads this
    {
      (count, value) == Print(hash, frames)
    }

    constructor (hash: seq<int> -> nat)
      ensures Valid() && frames == [] && this.hash == hash
    {
      count, value, frames, this.hash := 0, 0, [], hash;
    }

    method Add(frame: seq<int>, hashed: nat)
      requires Valid() && hashed == hash(frame)
      modifies this
      ensures Valid() && frames == old(frames) + [frame]
    {
      count := count + 1;
      value := (value + hashed) % MODULUS;
      frames := frames + [frame];
    }
  }

  lemma ModSum(a: nat, b: nat)
    ensures (a % MODULUS + b) % MODULUS == (a + b) % MODULUS
  {
  }

  ghost function HashSum(hash: seq<int> -> nat, frames: multiset<seq<int>>): nat
    decreases |frames|
  {
    if frames == multiset{} then 0
    else
      var f := Pick(frames);
      hash(f) + HashSum(hash, frames - multiset{f})
  }

  ghost function Pick(frames: multiset<seq<int>>): (f: seq<int>)
    requires frames != multiset{}
    ensures f in frames
  {
    var f :| f in frames;
    f
  }

  lemma {:induction false} HashSumTakesOut(hash: seq<int> -> nat, frames: multiset<seq<int>>, f: seq<int>)
    requires f in frames
    ensures HashSum(hash, frames) == hash(f) + HashSum(hash, frames - multiset{f})
    decreases |frames|
  {
    var g := Pick(frames);
    if g != f {
      HashSumTakesOut(hash, frames - multiset{g}, f);
      HashSumTakesOut(hash, frames - multiset{f}, g);
      assert frames - multiset{g} - multiset{f} == frames - multiset{f} - multiset{g};
    }
  }

  lemma NoFrames(hash: seq<int> -> nat)
    ensures HashSum(hash, multiset{}) == 0
  {
  }

  /** The fingerprint is a function of the multiset of frames: thread order and chunk boundaries cannot show. */
  lemma {:induction false} PrintIgnoresOrder(hash: seq<int> -> nat, frames: seq<seq<int>>)
    ensures Print(hash, frames) == (|frames|, HashSum(hash, multiset(frames)) % MODULUS)
  {
    hide HashSum;
    if frames == [] {
      NoFrames(hash);
    } else {
      var n := |frames| - 1;
      var last := frames[n];
      PrintIgnoresOrder(hash, frames[..n]);
      assert frames == frames[..n] + [last];
      HashSumTakesOut(hash, multiset(frames), last);
      assert multiset(frames) == multiset(frames[..n]) + multiset{last};
      assert multiset(frames) - multiset{last} == multiset(frames[..n]);
      ModSum(HashSum(hash, multiset(frames[..n])), hash(last));
    }
  }
}
