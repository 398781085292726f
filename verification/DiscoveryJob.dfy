/**
 A discovery job from its request to its end: which probes it consists of, when it may start, and that
 a completed run has made every one of them - every address of every network on every port.
 */
module DiscoveryJob {
  import opened Arithmetic
  import opened ListFacts
  import opened Outcomes
  import opened Prefixes
  import Pool = DiscoveryPool

  const PROBE_LIMIT: int := 2_000_000

  datatype Probe = Probe(host: nat, port: nat)

  function HostsIn(cidr: string): seq<nat> {
    if ParseDiscoveryPrefix(cidr).Some? then HostsOf(ParseDiscoveryPrefix(cidr).value) else []
  }

  function NetsOf(cidrs: seq<string>): (nets: seq<seq<nat>>)
    ensures |nets| == |cidrs| && forall i | 0 <= i < |cidrs| :: nets[i] == HostsIn(cidrs[i])
  {
    seq(|cidrs|, i requires 0 <= i < |cidrs| => HostsIn(cidrs[i]))
  }

  /** How many probes each network needs. */
  function Lens(nets: seq<seq<nat>>, ports: nat): seq<nat> {
    if nets == [] then [] else [|nets[0]| * ports] + Lens(nets[1..], ports)
  }

  /** The probe that the producer hands out as number `k`: for each network, each host, each port. */
  function ProbeOf(nets: seq<seq<nat>>, ports: seq<nat>, k: nat): Probe
    requires k < Pool.Total(Lens(nets, |ports|))
  {
    var here := |nets[0]| * |ports|;
    if k < here then
      Place(|nets[0]|, |ports|, k);
      Probe(nets[0][k / |ports|], ports[k % |ports|])
    else ProbeOf(nets[1..], ports, k - here)
  }

  /** The number of the probe of host `h` and port `p` of network `n`. */
  function Number(nets: seq<seq<nat>>, ports: nat, n: nat, h: nat, p: nat): nat
    requires n < |nets|
  {
    if n == 0 then h * ports + p else |nets[0]| * ports + Number(nets[1..], ports, n - 1, h, p)
  }

  lemma Place(hosts: nat, ports: nat, k: nat)
    requires k < hosts * ports
    ensures ports > 0 && k / ports < hosts && k % ports < ports && k / ports * ports + k % ports == k
  {
    if ports > 0 {
      DivBetween(k / ports, ports, k);
      if k / ports >= hosts {
        MulMono(hosts, k / ports, ports);
      }
    }
  }

  lemma PlaceBack(hosts: nat, ports: nat, h: nat, p: nat)
    requires h < hosts && p < ports
    ensures h * ports + p < hosts * ports
    ensures (h * ports + p) / ports == h && (h * ports + p) % ports == p
  {
    var k := h * ports + p;
    MulMono(h + 1, hosts, ports);
    MulAdd(h, 1, ports);
    DivBetween(h, ports, k);
    assert k == k / ports * ports + k % ports;
  }

  /** Every host and port of every network has its number, which stands for that probe. */
  lemma {:induction false} NumberOfProbe(nets: seq<seq<nat>>, ports: seq<nat>, n: nat, h: nat, p: nat)
    requires n < |nets| && h < |nets[n]| && p < |ports|
    ensures Number(nets, |ports|, n, h, p) < Pool.Total(Lens(nets, |ports|))
    ensures ProbeOf(nets, ports, Number(nets, |ports|, n, h, p)) == Probe(nets[n][h], ports[p])
  {
    var here := |nets[0]| * |ports|;
    assert Lens(nets, |ports|)[1..] == Lens(nets[1..], |ports|);
    if n == 0 {
      PlaceBack(|nets[0]|, |ports|, h, p);
    } else {
      NumberOfProbe(nets[1..], ports, n - 1, h, p);
    }
  }

  /** Every number stands for the probe of one host and port of one network. */
  lemma {:induction false} ProbeOfNumber(nets: seq<seq<nat>>, ports: seq<nat>, k: nat) returns (n: nat, h: nat, p: nat)
    requires k < Pool.Total(Lens(nets, |ports|))
    ensures n < |nets| && h < |nets[n]| && p < |ports| && Number(nets, |ports|, n, h, p) == k
  {
    var here := |nets[0]| * |ports|;
    assert Lens(nets, |ports|)[1..] == Lens(nets[1..], |ports|);
    if k < here {
      Place(|nets[0]|, |ports|, k);
      n, h, p := 0, k / |ports|, k % |ports|;
    } else {
      n, h, p := ProbeOfNumber(nets[1..], ports, k - here);
      n := n + 1;
    }
  }

  /** Different hosts, ports or networks have different numbers. */
  lemma {:induction false} NumbersDiffer(nets: seq<seq<nat>>, ports: nat, n: nat, h: nat, p: nat, n1: nat, h1: nat,
                                         p1: nat)
    requires n < |nets| && h < |nets[n]| && p < ports
    requires n1 < |nets| && h1 < |nets[n1]| && p1 < ports
    requires Number(nets, ports, n, h, p) == Number(nets, ports, n1, h1, p1)
    ensures n == n1 && h == h1 && p == p1
  {
    if n == 0 {
      PlaceBack(|nets[0]|, ports, h, p);
    }
    if n1 == 0 {
      PlaceBack(|nets[0]|, ports, h1, p1);
    }
    if n > 0 && n1 > 0 {
      NumbersDiffer(nets[1..], ports, n - 1, h, p, n1 - 1, h1, p1);
    }
  }

  lemma {:induction false} SizesFromFront(cidrs: seq<string>)
    requires cidrs != []
    ensures TotalSize(cidrs) == |HostsIn(cidrs[0])| + TotalSize(cidrs[1..])
  {
    hide HostsOf, ParseDiscoveryPrefix, Pow2;
    var n := |cidrs| - 1;
    HostsSize(cidrs[n]);
    if n == 0 {
      assert cidrs[..0] == [] && cidrs[1..] == [];
    } else {
      SizesFromFront(cidrs[..n]);
      assert cidrs[..n][1..] == cidrs[1..][..n - 1];
    }
  }

  lemma HostsSize(cidr: string)
    ensures |HostsIn(cidr)| == SizeOf(ParseDiscoveryPrefix(cidr))
  {
    hide Pow2;
  }

  /** The `total` that progress is measured against is the number of probes. */
  lemma {:induction false} TotalIsHostsTimesPorts(cidrs: seq<string>, ports: nat)
    ensures Pool.Total(Lens(NetsOf(cidrs), ports)) == TotalSize(cidrs) * ports
  {
    hide HostsIn;
    if cidrs != [] {
      SizesFromFront(cidrs);
      TotalIsHostsTimesPorts(cidrs[1..], ports);
      assert NetsOf(cidrs)[1..] == NetsOf(cidrs[1..]);
      MulAdd(|HostsIn(cidrs[0])|, TotalSize(cidrs[1..]), ports);
    }
  }

  predicate OccursOnce(tasks: seq<nat>, k: nat) {
    exists i :: 0 <= i < |tasks| && tasks[i] == k && forall j | 0 <= j < |tasks| :: tasks[j] == k ==> j == i
  }

  /**
   In every schedule that ends as completed, the result of each address of each network on each port
   has been received exactly once; every result received is one of these.
   */
  lemma EveryAddressOnEveryPortOnce(cidrs: seq<string>, ports: seq<nat>, workers: nat, ops: seq<Pool.Op>, n: nat,
                                    a: nat, p: nat)
    requires workers > 0 && n < |cidrs| && p < |ports|
    requires ParseDiscoveryPrefix(cidrs[n]).Some? && Contains(ParseDiscoveryPrefix(cidrs[n]).value, a)
    requires var job := Pool.Job(Lens(NetsOf(cidrs), |ports|), workers);
      Pool.Run(job, Pool.Start(job), ops).fate == Pool.Wrote(Pool.Completed)
    ensures var job := Pool.Job(Lens(NetsOf(cidrs), |ports|), workers);
      var s := Pool.Run(job, Pool.Start(job), ops);
      exists h :: 0 <= h < |HostsIn(cidrs[n])| && HostsIn(cidrs[n])[h] == a &&
                  OccursOnce(s.collected, Number(NetsOf(cidrs), |ports|, n, h, p))
    ensures var job := Pool.Job(Lens(NetsOf(cidrs), |ports|), workers);
      var s := Pool.Run(job, Pool.Start(job), ops);
      |s.collected| == TotalSize(cidrs) * |ports| &&
        forall i | 0 <= i < |s.collected| :: s.collected[i] < TotalSize(cidrs) * |ports|
  {
    hide Pool.Run, Pool.Total, HostsOf, ParseDiscoveryPrefix, Pool.Next;
    var job := Pool.Job(Lens(NetsOf(cidrs), |ports|), workers);
    var s := Pool.Run(job, Pool.Start(job), ops);
    Pool.EveryProbeOnce(job, ops);
    Pool.StartIsPlaced(job);
    Pool.RunKeepsPlaced(job, Pool.Start(job), ops);
    TotalIsHostsTimesPorts(cidrs, |ports|);
    HostsAreExact(cidrs[n], a);
    var h :| 0 <= h < |HostsIn(cidrs[n])| && HostsIn(cidrs[n])[h] == a;
    NumberOfProbe(NetsOf(cidrs), ports, n, h, p);
    var k := Number(NetsOf(cidrs), |ports|, n, h, p);
    FoundOnce(s.collected, k);
  }

  lemma FoundOnce(tasks: seq<nat>, k: nat)
    requires NoRepeats(tasks) && k in tasks
    ensures OccursOnce(tasks, k)
  {
    var i :| 0 <= i < |tasks| && tasks[i] == k;
    assert forall j | 0 <= j < |tasks| :: tasks[j] == k ==> j == i;
  }

  /***** Starting *****/

  datatype StartError = NoClient | BadNetwork | NoProbes | TooMany | AlreadyRunning

  /** Why a job cannot start, apart from one with its name still running; the first reason counts. */
  function Obstacle(clientID: int, cidrs: seq<string>, ports: nat): Option<StartError> {
    if clientID < 1 then Some(NoClient)
    else if !AllParse(cidrs) then Some(BadNetwork)
    else if TotalSize(cidrs) == 0 || ports == 0 then Some(NoProbes)
    else if TotalSize(cidrs) * ports > PROBE_LIMIT then Some(TooMany)
    else None
  }

  class Manager {
    const concurrency: nat
    /** The jobs with a run that has not cleaned up yet. */
    var cancels: set<nat>

    constructor ()
      ensures cancels == {} && concurrency == 256
    {
      concurrency := 256;
      cancels := {};
    }

    method Start(jobID: nat, clientID: int, cidrs: seq<string>, ports: nat) returns (r: Result<Pool.Job, StartError>)
      modifies this
      ensures r.Err? <==> Obstacle(clientID, cidrs, ports).Some? || jobID in old(cancels)
      ensures r.Err? ==> cancels == old(cancels) &&
                         r.error == if Obstacle(clientID, cidrs, ports).Some?
                         then Obstacle(clientID, cidrs, ports).value else AlreadyRunning
      ensures r.Ok? ==> cancels == old(cancels) + {jobID} &&
                        r.value == Pool.Job(Lens(NetsOf(cidrs), ports), concurrency) &&
                        0 < Pool.Total(r.value.lens) <= PROBE_LIMIT
    {
      hide ParseDiscoveryPrefix, Lens, Pool.Total;
      if clientID < 1 {
        return Err(NoClient);
      }
      var totalHosts := CountHosts(cidrs);
      if totalHosts.Err? {
        return Err(BadNetwork);
      }
      if totalHosts.value == 0 || ports == 0 {
        return Err(NoProbes);
      }
      if totalHosts.value * ports > PROBE_LIMIT {
        return Err(TooMany);
      }
      if jobID in cancels {
        return Err(AlreadyRunning);
      }
      cancels := cancels + {jobID};
      TotalIsHostsTimesPorts(cidrs, ports);
      MulMono(1, totalHosts.value, ports);
      return Ok(Pool.Job(Lens(NetsOf(cidrs), ports), concurrency));
    }
  }
}
