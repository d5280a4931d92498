/** The sliding window of unconfirmed headers, and what one new head does to it. */
module ConfirmationBuffer {
  import opened Common
  import opened BlockTree

  // resolve_parent(n, hash); None is an exception.
  type Resolver = (int, string) -> Option<Header>

  // The value `handle_new_head` returns (a list, or a ReorgEvent that is deep
  // or not), or the exception of `resolve_parent` passed on.
  datatype Outcome =
    | Clean(confirmed: seq<Header>)
    | Reorg(rewoundTo: int, newBranch: seq<Header>, dropped: seq<Header>, confirmed: seq<Header>)
    | Deep(divergentOldest: int, newHead: Header, confirmed: seq<Header>)
    | Raised(number: int, hash: string)

  // Headers at the front that have reached depth `confirmations` under a tip.
  function DrainCount(confirmations: nat, buf: seq<Header>, tip: int): (n: nat)
    ensures n <= |buf|
    ensures forall i :: 0 <= i < n ==> tip - buf[i].number >= confirmations
    ensures n < |buf| ==> tip - buf[n].number < confirmations
  {
    if buf == [] || tip - buf[0].number < confirmations then 0
    else 1 + DrainCount(confirmations, buf[1..], tip)
  }

  // `by_hash` keeps the last header of a hash.
  function LastIndex(buf: seq<Header>, hash: string): (r: Option<nat>)
    ensures r.Some? ==> r.value < |buf| && buf[r.value].hash == hash
    ensures r.Some? ==> forall j :: r.value < j < |buf| ==> buf[j].hash != hash
    ensures r.None? ==> forall j :: 0 <= j < |buf| ==> buf[j].hash != hash
  {
    if buf == [] then None
    else if buf[|buf| - 1].hash == hash then Some(|buf| - 1)
    else LastIndex(buf[..|buf| - 1], hash)
  }

  datatype Walked =
    | Found(at: nat, branch: seq<Header>)
    | Exhausted
    | Missing(number: int, hash: string)

  // The walk back from `cursor`; `branch` is cursor..head, oldest first.
  function Walk(buf: seq<Header>, resolve: Resolver, cursor: Header, branch: seq<Header>, steps: nat): (w: Walked)
    ensures w.Found? ==> w.at < |buf|
    decreases steps
  {
    if steps == 0 then Exhausted
    else match LastIndex(buf, cursor.parentHash)
      case Some(i) => Found(i, branch)
      case None =>
        match resolve(cursor.number - 1, cursor.parentHash)
        case None => Missing(cursor.number - 1, cursor.parentHash)
        case Some(p) => Walk(buf, resolve, p, [p] + branch, steps - 1)
  }

  predicate LinksClean(buf: seq<Header>, head: Header) {
    buf == [] || buf[|buf| - 1].hash == head.parentHash
  }

  // What a nonempty window keeps and what it gives up as confirmed.
  function Confirm(confirmations: nat, full: seq<Header>): (seq<Header>, seq<Header>)
    requires full != []
  {
    var n := DrainCount(confirmations, full, full[|full| - 1].number);
    (full[n..], full[..n])
  }

  // The new window and the value returned.
  function Handle(confirmations: nat, buf: seq<Header>, head: Header, resolve: Resolver): (seq<Header>, Outcome) {
    if LinksClean(buf, head) then
      var (kept, confirmed) := Confirm(confirmations, buf + [head]);
      (kept, Clean(confirmed))
    else match Walk(buf, resolve, head, [head], |buf| + 1)
      case Found(i, branch) =>
        var (kept, confirmed) := Confirm(confirmations, buf[..i + 1] + branch);
        (kept, Reorg(buf[i].number, branch, buf[i + 1..], confirmed))
      case Exhausted =>
        var (kept, confirmed) := Confirm(confirmations, [head]);
        (kept, Deep(buf[0].number, head, confirmed))
      case Missing(n, h) => (buf, Raised(n, h))
  }

  class ConfirmationBuffer {
    const confirmations: nat
    var buf: seq<Header>

    constructor (confirmations: nat)
      ensures this.confirmations == confirmations && buf == []
    {
      this.confirmations := confirmations;
      buf := [];
    }

    // `None` is the ValueError of a head that does not link.
    method Append(head: Header) returns (confirmed: Option<seq<Header>>)
      modifies this`buf
      ensures confirmed.None? <==> !LinksClean(old(buf), head)
      ensures confirmed.None? ==> buf == old(buf)
      ensures confirmed.Some? ==> (buf, confirmed.value) == Confirm(confirmations, old(buf) + [head])
    {
      if buf != [] && buf[|buf| - 1].hash != head.parentHash {
        return None;
      }
      buf := buf + [head];
      var c := DrainConfirmed();
      return Some(c);
    }

    method DrainConfirmed() returns (confirmed: seq<Header>)
      modifies this`buf
      ensures old(buf) == [] ==> buf == confirmed == []
      ensures old(buf) != [] ==> (buf, confirmed) == Confirm(confirmations, old(buf))
    {
      hide DrainCount;
      confirmed := [];
      if buf == [] {
        return;
      }
      var tip := buf[|buf| - 1].number;
      ghost var full := buf;
      while buf != [] && tip - buf[0].number >= confirmations
        invariant |confirmed| <= |full| && confirmed == full[..|confirmed|] && buf == full[|confirmed|..]
        invariant forall i :: 0 <= i < |confirmed| ==> tip - full[i].number >= confirmations
        decreases |buf|
      {
        confirmed, buf := confirmed + [buf[0]], buf[1..];
      }
      assert |confirmed| == DrainCount(confirmations, full, tip);
    }

    // Pops the suffix above the last header with the ancestor's hash.
    method PopTo(hash: string) returns (dropped: seq<Header>)
      requires LastIndex(buf, hash).Some?
      modifies this`buf
      ensures var i := LastIndex(old(buf), hash).value;
              buf == old(buf)[..i + 1] && dropped == old(buf)[i + 1..]
    {
      hide LastIndex, Reverse;
      ghost var full := buf;
      ghost var i := LastIndex(full, hash).value;
      var popped := [];
      while buf != [] && buf[|buf| - 1].hash != hash
        invariant i < |buf| <= |full| && buf == full[..|buf|] && |popped| == |full| - |buf|
        invariant forall k :: 0 <= k < |popped| ==> popped[k] == full[|full| - 1 - k]
        decreases |buf|
      {
        popped, buf := popped + [buf[|buf| - 1]], buf[..|buf| - 1];
      }
      assert |buf| == i + 1;
      dropped := Reverse(popped);
    }

    method HandleNewHead(head: Header, resolve: Resolver) returns (out: Outcome)
      modifies this`buf
      ensures (buf, out) == Handle(confirmations, old(buf), head, resolve)
    {
      hide Confirm, Reverse;
      if buf == [] || buf[|buf| - 1].hash == head.parentHash {
        var r := Append(head);
        return Clean(r.value);
      }
      var branch, cursor := [head], head;
      var maxWalk := |buf| + 1;
      ghost var target := Walk(buf, resolve, head, [head], maxWalk);
      assert Reverse([head]) == [head];
      for step := 0 to maxWalk
        invariant buf == old(buf)
        invariant Walk(buf, resolve, cursor, Reverse(branch), maxWalk - step) == target
      {
        var hit := LastIndex(buf, cursor.parentHash);
        if hit.Some? {
          var ancestor := buf[hit.value];
          var dropped := PopTo(ancestor.hash);
          var newBranch := Reverse(branch);
          buf := buf + newBranch;
          var confirmed := DrainConfirmed();
          return Reorg(ancestor.number, newBranch, dropped, confirmed);
        }
        var parent := resolve(cursor.number - 1, cursor.parentHash);
        if parent.None? {
          return Raised(cursor.number - 1, cursor.parentHash);
        }
        assert Reverse(branch + [parent.value]) == [parent.value] + Reverse(branch);
        branch, cursor := branch + [parent.value], parent.value;
      }
      var oldest := buf[0].number;
      buf := [head];
      var confirmed := DrainConfirmed();
      return Deep(oldest, head, confirmed);
    }
  }
}
