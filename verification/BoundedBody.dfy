/** Reading an HTTP body under a limit, and the claim that can be made once. */
module BoundedBody {
  import opened Bytes

  predicate WithinLimit(declared: Option<nat>, chunks: seq<ByteString>, limit: nat) {
    (declared.Some? ==> declared.value <= limit) && TotalLength(chunks) <= limit
  }

  lemma {:induction false} PrefixLength(chunks: seq<ByteString>, i: nat)
    requires i <= |chunks|
    ensures TotalLength(chunks[..i]) <= TotalLength(chunks)
    decreases |chunks|
  {
    if i > 0 {
      PrefixLength(chunks[1..], i - 1);
      assert chunks[..i][1..] == chunks[1..][..i - 1];
    }
  }

  /** The accumulator of both adapters: the body is accepted exactly when the declared length
      and the whole body are within the limit, and the buffer, whose largest size is `peak`,
      never is larger. */
  method ReadBounded(declared: Option<nat>, chunks: seq<ByteString>, limit: nat)
    returns (r: Option<ByteString>, ghost peak: nat)
    ensures r.Some? <==> WithinLimit(declared, chunks, limit)
    ensures r.Some? ==> r.value == Flatten(chunks)
    ensures peak <= limit
  {
    peak := 0;
    if declared.Some? && declared.value > limit {
      r := None;
      return;
    }
    var body: ByteString := [];
    var i := 0;
    while i < |chunks|
      invariant 0 <= i <= |chunks|
      invariant body == Flatten(chunks[..i]) && |body| <= peak <= limit
    {
      assert chunks[..i + 1] == chunks[..i] + [chunks[i]];
      FlattenSnoc(chunks[..i], chunks[i]);
      if |chunks[i]| > limit - |body| {
        PrefixLength(chunks, i + 1);
        r := None;
        return;
      }
      body := body + chunks[i];
      peak := if |body| > peak then |body| else peak;
      i := i + 1;
    }
    assert chunks[..i] == chunks;
    r := Some(body);
  }

  /** The atomic flag of the qualification adapter. */
  class OneShot {
    var used: bool

    constructor ()
      ensures !used
    {
      used := false;
    }

    /** Compare and exchange: the first claim wins, every later one loses. */
    method Claim() returns (won: bool)
      modifies this
      ensures won == !old(used) && used
    {
      won := !used;
      used := true;
    }
  }

  /** However often it is claimed, a fresh flag is won by the first claim and by no other. */
  method ClaimRepeatedly(flag: OneShot, n: nat) returns (wins: seq<bool>)
    modifies flag
    ensures |wins| == n && forall i :: 0 <= i < n ==> (wins[i] <==> i == 0 && !old(flag.used))
    ensures flag.used == (old(flag.used) || n > 0)
  {
    wins := [];
    var i := 0;
    while i < n
      invariant 0 <= i <= n && |wins| == i
      invariant forall k :: 0 <= k < i ==> (wins[k] <==> k == 0 && !old(flag.used))
      invariant flag.used == (old(flag.used) || i > 0)
    {
      var won := flag.Claim();
      wins := wins + [won];
      i := i + 1;
    }
  }
}
