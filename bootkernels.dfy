/**
 * The kernel dictionary that both the live-CD and the appliance creators
 * walk: each key ('vmlinuz', 'kernel-PAE', ...) maps to a list of version
 * strings. A Python dictionary is iterated in an order of its own; the model
 * receives its entries as a sequence in that iteration order.
 */
module BootKernels {
  import opened Wrappers

  type KernelEntries = seq<(string, seq<string>)>

  /** All versions, key after key, each key's versions in list order. */
  function Versions(kernels: KernelEntries): seq<string>
  {
    if kernels == [] then [] else kernels[0].1 + Versions(kernels[1..])
  }

  lemma {:induction false} VersionsAppend(a: KernelEntries, b: KernelEntries)
    ensures Versions(a + b) == Versions(a) + Versions(b)
  {
    if a == [] {
      assert a + b == b;
    } else {
      assert (a + b)[1..] == a[1..] + b;
      VersionsAppend(a[1..], b);
    }
  }

  /** A version is listed exactly when some key lists it. */
  lemma {:induction false} VersionsMembership(kernels: KernelEntries, v: string)
    ensures v in Versions(kernels) <==> exists i :: 0 <= i < |kernels| && v in kernels[i].1
  {
    if kernels != [] {
      VersionsMembership(kernels[1..], v);
      if v in Versions(kernels[1..]) {
        var i :| 0 <= i < |kernels[1..]| && v in kernels[1..][i].1;
        assert v in kernels[i + 1].1;
      }
      if exists i :: 0 <= i < |kernels| && v in kernels[i].1 {
        var i :| 0 <= i < |kernels| && v in kernels[i].1;
        if i > 0 {
          assert v in kernels[1..][i - 1].1;
        }
      }
    }
  }

  /**
   * The nested loop at the head of the stanza and menu builders: append
   * every version of every key. Also returns what the loop variable over
   * the keys holds once the loop is over (the LAST key), which live.py
   * goes on using after the loop.
   */
  method CollectVersions(kernels: KernelEntries) returns (versions: seq<string>, kernel: Option<string>)
    ensures versions == Versions(kernels)
    ensures kernel == if kernels == [] then None else Some(kernels[|kernels| - 1].0)
  {
    versions := [];
    kernel := None;
    var i := 0;
    while i < |kernels|
      invariant 0 <= i <= |kernels|
      invariant versions == Versions(kernels[..i])
      invariant kernel == if i == 0 then None else Some(kernels[i - 1].0)
    {
      kernel := Some(kernels[i].0);
      var vs := kernels[i].1;
      var j := 0;
      while j < |vs|
        invariant 0 <= j <= |vs|
        invariant versions == Versions(kernels[..i]) + vs[..j]
      {
        versions := versions + [vs[j]];
        assert vs[..j + 1] == vs[..j] + [vs[j]];
        j := j + 1;
      }
      assert vs[..j] == vs;
      assert kernels[..i + 1] == kernels[..i] + [kernels[i]];
      VersionsAppend(kernels[..i], [kernels[i]]);
      assert Versions([kernels[i]]) == vs + Versions([]);
      i := i + 1;
    }
    assert kernels[..i] == kernels;
  }
}
