/** Definitions shared by every component of the model. */
module Basics {

  datatype Option<+T> = None | Some(value: T)

  /** A result that carries either a value or the reason it is missing. */
  datatype Result<+T, +E> = Ok(value: T) | Err(error: E)

  /** An Internet address, split the way the tailnet check reads it. */
  datatype IpAddr =
    | V4(first: nat, second: nat, third: nat, fourth: nat)
    | V6(segments: seq<nat>)

  /** A network endpoint of an agent. */
  datatype Endpoint = Endpoint(address: IpAddr, port: nat)

  /** The addresses Tailscale hands out. */
  predicate IsTailscaleAddress(address: IpAddr) {
    match address
    case V4(first, second, _, _) => first == 100 && 64 <= second < 128
    case V6(segments) =>
      |segments| == 8 && segments[0] == 0xfd7a && segments[1] == 0x115c && segments[2] == 0xa1e0
  }

  /** The addresses Tailscale hands out are 100.64.0.0/10 and fd7a:115c:a1e0::/48, read as numbers. */
  lemma TailscaleRanges(a: nat, b: nat, c: nat, d: nat, s: seq<nat>)
    requires a < 256 && b < 256 && c < 256 && d < 256
    requires |s| == 8 && forall i | 0 <= i < 8 :: s[i] < 0x1_0000
    ensures var address := ((a * 256 + b) * 256 + c) * 256 + d;
            IsTailscaleAddress(V4(a, b, c, d)) <==> 0x6440_0000 <= address < 0x6480_0000
    ensures IsTailscaleAddress(V6(s)) <==> (s[0] * 0x1_0000 + s[1]) * 0x1_0000 + s[2] == 0xfd7a_115c_a1e0
  {
  }

  /** `Instant::duration_since`: the elapsed time, never negative. */
  function Elapsed(now: int, earlier: int): nat {
    if now <= earlier then 0 else now - earlier
  }

  lemma SubsetSize<T>(small: set<T>, big: set<T>)
    requires small <= big
    ensures |small| <= |big|
  {
    assert big == small + (big - small);
  }

  lemma Reassociate<T>(a: seq<T>, b: seq<T>, c: seq<T>)
    ensures (a + b) + c == a + (b + c)
  {
  }

  lemma FirstOf<T>(first: seq<T>, second: seq<T>)
    requires first != []
    ensures (first + second)[0] == first[0] && (first + second)[1..] == first[1..] + second
  {
  }
}
