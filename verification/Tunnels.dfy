/** Tunnels and what makes one fit to carry traffic. Durations are in nanoseconds. */
module Tunnels {
  import opened Prelude

  const Second := 1_000_000_000
  const StartBackoff := 60 * Second
  const CycleBackoff := 300 * Second

  /** handshakeAge is in seconds, -1 when there was never a handshake. */
  datatype Tunnel = Tunnel(name: string, up: bool, handshakeAge: int) {
    predicate Live(staleAfter: int)
    {
      up && handshakeAge >= 0 && handshakeAge * Second <= staleAfter
    }
  }

  function LiveOnes(ts: seq<Tunnel>, staleAfter: int): seq<Tunnel>
  {
    Filter(ts, (t: Tunnel) => t.Live(staleAfter))
  }

  method LiveTunnels(ts: seq<Tunnel>, staleAfter: int) returns (out: seq<Tunnel>)
    ensures out == LiveOnes(ts, staleAfter)
    ensures forall t :: t in out <==> t in ts && t.up && 0 <= t.handshakeAge * 1_000_000_000 <= staleAfter
  {
    out := [];
    for i := 0 to |ts|
      invariant out == LiveOnes(ts[..i], staleAfter)
    {
      assert ts[..i + 1] == ts[..i] + [ts[i]];
      FilterConcat(ts[..i], [ts[i]], (t: Tunnel) => t.Live(staleAfter));
      if ts[i].Live(staleAfter) {
        out := out + [ts[i]];
      }
    }
    assert ts[..|ts|] == ts;
  }

  datatype Action = Leave | Start | Restart

  function RecoveryAction(t: Tunnel, staleAfter: int, since: int): Action
  {
    if !t.up then
      if since < StartBackoff then Leave else Start
    else if t.handshakeAge < 0 || t.handshakeAge * Second > 2 * staleAfter then
      if since < CycleBackoff then Leave else Restart
    else
      Leave
  }
}
