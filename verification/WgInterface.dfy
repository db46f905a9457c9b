/** Choosing a free numbered WireGuard interface and creating it. */
module WgInterface {
  import opened Bytes
  import opened Decimal

  const MAX_RETRY: nat := 5

  datatype CreateError = WgExists | OtherError

  function Name(n: nat): string { "wg" + Show(n) }

  lemma NameInjective(m: nat, n: nat)
    requires Name(m) == Name(n)
    ensures m == n
  {
    assert Name(m)[2..] == Show(m) && Name(n)[2..] == Show(n);
    ShowInjective(m, n);
  }

  /** The links that are not among the first `n` numbered names. */
  ghost function Others(links: set<string>, n: nat): set<string> {
    links - (set k | 0 <= k < n :: Name(k))
  }

  /** The kernel's answer to each attempt: creating the name, in the order of the attempts. */
  type Kernel = nat -> Outcome<(), CreateError>

  ghost predicate LeastFree(links: set<string>, n: nat) {
    Name(n) !in links && forall k :: 0 <= k < n ==> Name(k) in links
  }

  /** The names of consecutive numbers from `n` on. */
  ghost predicate Consecutive(names: seq<string>, n: nat) {
    forall i :: 0 <= i < |names| ==> names[i] == Name(n + i)
  }

  /** The first number whose name is not taken; the search ends because the links are finite. */
  method FirstFree(links: set<string>) returns (n: nat)
    ensures LeastFree(links, n) && n <= |links|
  {
    hide Name, Others;
    n := 0;
    NoneSeen(links);
    while Name(n) in links
      invariant forall k :: 0 <= k < n ==> Name(k) in links
      invariant |Others(links, n)| + n == |links|
      decreases |Others(links, n)|
    {
      Step(links, n);
      n := n + 1;
    }
  }

  lemma NoneSeen(links: set<string>)
    ensures Others(links, 0) == links
  {
  }

  lemma Step(links: set<string>, n: nat)
    requires Name(n) in links && forall k :: 0 <= k < n ==> Name(k) in links
    ensures |Others(links, n + 1)| == |Others(links, n)| - 1
  {
    forall k | 0 <= k < n ensures Name(k) != Name(n) {
      if Name(k) == Name(n) {
        NameInjective(k, n);
      }
    }
    assert Name(n) in Others(links, n);
    assert Others(links, n + 1) == Others(links, n) - {Name(n)};
  }

  /**
   * `create_blank_wg_numbered_wg_interface`. `tried` lists the names it asked the kernel for: the least
   * free number and its successors, at most seven; all but the last were refused as existing, and the
   * result is the answer to the last.
   */
  method CreateNumbered(links: set<string>, kernel: Kernel)
    returns (r: Outcome<string, CreateError>, tried: seq<string>)
    requires forall i :: !kernel(i).Panic?
    ensures 1 <= |tried| <= 7
    ensures exists n: nat :: LeastFree(links, n) && Consecutive(tried, n)
    ensures forall i :: 0 <= i < |tried| - 1 ==> kernel(i) == Err(WgExists)
    ensures r.Ok? <==> kernel(|tried| - 1).Ok?
    ensures r.Ok? ==> r.value == tried[|tried| - 1]
    ensures r.Err? ==> kernel(|tried| - 1) == Err(r.error)
    ensures r == Err(WgExists) ==> |tried| == 7
  {
    hide Name, LeastFree;
    var n := FirstFree(links);
    var ifNum := n;
    var count := 0;
    var interface := Name(ifNum);
    tried := [interface];
    var res := kernel(0);
    while res == Err(WgExists)
      invariant count <= MAX_RETRY && |tried| == count + 1 && ifNum == n + count
      invariant interface == Name(ifNum) && res == kernel(count) && tried[count] == interface
      invariant Consecutive(tried, n)
      invariant forall i :: 0 <= i < count ==> kernel(i) == Err(WgExists)
      decreases MAX_RETRY + 1 - count
    {
      ifNum := ifNum + 1;
      interface := Name(ifNum);
      tried := tried + [interface];
      count := count + 1;
      res := kernel(count);
      if count > MAX_RETRY {
        break;
      }
    }
    if res.Err? {
      return Err(res.error), tried;
    }
    return Ok(interface), tried;
  }
}
