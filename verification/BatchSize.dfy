/** The batch size suggested to the workflow builder, after `estimate` in `batch_suggestion.py`. */
module BatchSize {
  import opened Numbers
  import opened Options
  import opened Decimal

  datatype Error =
    | NoPairs
    | BadCores
    | BadThreads
    | BadFlag
    | AllCoresWithoutSockets
    | CannotRun(name: string)
    | NoConfiguration
    | BadMaximum

  datatype Outcome<+T> = Ok(value: T) | Err(error: Error)

  type Pos = n: int | n >= 1 witness 1

  datatype Node = Node(sockets: Pos, perSocket: Pos, threads: Pos)

  /** A configuration as entered; a flag that is neither blank, true nor false is `None`. */
  datatype Configuration = Configuration(
    name: string, cores: string, threadsPerCore: string,
    dedicatedNode: Option<bool>, dedicatedSocket: Option<bool>)

  /** `cores` is `None` for all cores. */
  datatype Request = Request(cores: Option<Pos>, threads: Pos, dedicatedNode: bool, dedicatedSocket: bool)

  datatype Estimate = Estimate(batchSize: Pos, hardware: Pos, parallelism: Pos, capacities: seq<Pos>)

  // ---------------------------------------------------------------- reading a configuration

  /** A decimal numeral without sign or leading zero. */
  function Positive(text: string): Option<Pos> {
    if text != "" && AllDigits(text) && text[0] != '0' then
      LeadingDigit(text);
      Some(Parse(text))
    else None
  }

  predicate IsAll(text: string) {
    |text| == 3 && text[0] in {'a', 'A'} && text[1] in {'l', 'L'} && text[2] in {'l', 'L'}
  }

  function Interpret(c: Configuration): Outcome<Request> {
    var cores := if IsAll(c.cores) then Some(1) else Positive(c.cores);
    var threads := if c.threadsPerCore == "" then Some(1) else Positive(c.threadsPerCore);
    if cores.None? then Err(BadCores)
    else if threads.None? then Err(BadThreads)
    else if c.dedicatedNode.None? || c.dedicatedSocket.None? then Err(BadFlag)
    else if IsAll(c.cores) && !c.dedicatedSocket.value then Err(AllCoresWithoutSockets)
    else
      Ok(Request(if IsAll(c.cores) then None else Some(cores.value), threads.value,
                 c.dedicatedNode.value, c.dedicatedSocket.value))
  }

  /** A number is accepted exactly as it is printed: no sign, no leading zero, not zero. */
  lemma PositiveExactly(text: string, n: nat)
    ensures (Positive(text).Some? && Positive(text).value == n) <==> n >= 1 && text == Print(n)
  {
    PrintThenParse(n);
    if n >= 1 {
      PrintLeading(n);
    }
    if Positive(text).Some? {
      ParseThenPrint(text);
    }
  }

  lemma AllExactly(text: string)
    ensures IsAll(text) <==> text in ["all", "alL", "aLl", "aLL", "All", "AlL", "ALl", "ALL"]
  {
    if IsAll(text) {
      assert text == [text[0], text[1], text[2]];
    }
  }

  /** Which configurations are accepted, and as what. An empty number of threads counts as one. */
  lemma InterpretExactly(c: Configuration, r: Request)
    ensures Interpret(c) == Ok(r) <==>
      && (if IsAll(c.cores) then r.cores == None && c.dedicatedSocket == Some(true)
          else r.cores.Some? && c.cores == Print(r.cores.value))
      && (c.threadsPerCore == Print(r.threads) || (c.threadsPerCore == "" && r.threads == 1))
      && c.dedicatedNode == Some(r.dedicatedNode) && c.dedicatedSocket == Some(r.dedicatedSocket)
  {
    if r.cores.Some? {
      PositiveExactly(c.cores, r.cores.value);
    }
    PositiveExactly(c.threadsPerCore, r.threads);
  }

  // ---------------------------------------------------------------- how many pairs fit on a node

  function Cores(r: Request, node: Node): Pos {
    match r.cores
    case Some(n) => n
    case None =>
      Multiples(node.perSocket, node.sockets);
      if r.dedicatedNode then node.perSocket * node.sockets else node.perSocket
  }

  lemma Multiples(a: Pos, b: Pos)
    ensures a * b >= a && a * b >= b
  {
  }

  predicate CanRun(r: Request, node: Node) {
    Cores(r, node) <= node.sockets * node.perSocket && r.threads <= node.threads
  }

  /**
   `n` pairs at once: one per dedicated node, on whole sockets of their own, or sharing cores. Who asks for all
   cores means those of the node if it is dedicated, and of one socket otherwise.
   */
  ghost predicate Fit(r: Request, node: Node, n: nat) {
    var all := node.sockets * node.perSocket;
    var cores := if r.cores.Some? then r.cores.value else if r.dedicatedNode then all else node.perSocket;
    || n == 0
    || (cores <= all && r.threads <= node.threads &&
        if r.dedicatedNode then n == 1
        else if r.dedicatedSocket then
          exists k: nat :: cores <= k * node.perSocket && n * k <= node.sockets
        else n * cores <= all)
  }

  function Slots(r: Request, node: Node): nat {
    if !CanRun(r, node) then 0
    else if r.dedicatedNode then 1
    else if r.dedicatedSocket then
      var perPair := (Cores(r, node) + node.perSocket - 1) / node.perSocket;
      RoundedUp(Cores(r, node), node.perSocket);
      node.sockets / perPair
    else node.sockets * node.perSocket / Cores(r, node)
  }

  lemma QuotientBound(a: nat, b: Pos, n: nat)
    ensures n <= a / b <==> n * b <= a
  {
    assert a == b * (a / b) + a % b;
    if n <= a / b {
      Scale(b, n, a / b);
    } else {
      Scale(b, a / b + 1, n);
    }
  }

  /** Rounding up gives the least number of sockets with enough cores. */
  lemma RoundedUp(cores: Pos, per: Pos)
    ensures (cores + per - 1) / per >= 1
    ensures cores <= (cores + per - 1) / per * per
    ensures forall k: nat :: cores <= k * per ==> (cores + per - 1) / per <= k
  {
    var q := (cores + per - 1) / per;
    QuotientBound(cores + per - 1, per, 1);
    QuotientBound(cores + per - 1, per, q + 1);
    forall k: nat | cores <= k * per
      ensures q <= k
    {
      QuotientBound(cores + per - 1, per, k + 1);
    }
  }

  /** The slots counted for a node are the largest number of pairs that fit on it. */
  lemma SlotsAreMost(r: Request, node: Node, n: nat)
    ensures Fit(r, node, n) <==> n <= Slots(r, node)
  {
    if CanRun(r, node) && !r.dedicatedNode {
      if r.dedicatedSocket {
        var perPair := (Cores(r, node) + node.perSocket - 1) / node.perSocket;
        RoundedUp(Cores(r, node), node.perSocket);
        QuotientBound(node.sockets, perPair, n);
        if Fit(r, node, n) && n > 0 {
          var k: nat :| Cores(r, node) <= k * node.perSocket && n * k <= node.sockets;
          Scale(n, perPair, k);
        }
      } else {
        QuotientBound(node.sockets * node.perSocket, Cores(r, node), n);
      }
    }
  }

  // ---------------------------------------------------------------- the estimate

  function SlotsOver(r: Request, nodes: seq<Node>): nat {
    if nodes == [] then 0 else SlotsOver(r, nodes[..|nodes| - 1]) + Slots(r, nodes[|nodes| - 1])
  }

  ghost function Sum(shares: seq<nat>): nat {
    if shares == [] then 0 else Sum(shares[..|shares| - 1]) + shares[|shares| - 1]
  }

  /** The pairs can run at the same time, so many on each node. */
  ghost predicate Spread(r: Request, nodes: seq<Node>, shares: seq<nat>, n: nat) {
    |shares| == |nodes| && Sum(shares) == n && forall j :: 0 <= j < |nodes| ==> Fit(r, nodes[j], shares[j])
  }

  lemma {:induction false} SpreadAtMost(r: Request, nodes: seq<Node>, shares: seq<nat>, n: nat)
    requires Spread(r, nodes, shares, n)
    ensures n <= SlotsOver(r, nodes)
  {
    if nodes != [] {
      var k := |nodes| - 1;
      SpreadAtMost(r, nodes[..k], shares[..k], Sum(shares[..k]));
      SlotsAreMost(r, nodes[k], shares[k]);
    }
  }

  lemma {:induction false} SpreadFound(r: Request, nodes: seq<Node>, n: nat) returns (shares: seq<nat>)
    requires n <= SlotsOver(r, nodes)
    ensures Spread(r, nodes, shares, n)
  {
    shares := [];
    if nodes != [] {
      var k := |nodes| - 1;
      var last := if n <= Slots(r, nodes[k]) then n else Slots(r, nodes[k]);
      var rest := SpreadFound(r, nodes[..k], n - last);
      SlotsAreMost(r, nodes[k], last);
      shares := rest + [last];
      assert shares[..k] == rest;
    }
  }

  /** The capacity counted for a cluster is the largest number of pairs that can run on it at the same time. */
  lemma SlotsOverMost(r: Request, nodes: seq<Node>, n: nat)
    ensures n <= SlotsOver(r, nodes) <==> exists shares :: Spread(r, nodes, shares, n)
  {
    if n <= SlotsOver(r, nodes) {
      var shares := SpreadFound(r, nodes, n);
    }
    forall shares | Spread(r, nodes, shares, n)
      ensures n <= SlotsOver(r, nodes)
    {
      SpreadAtMost(r, nodes, shares, n);
    }
  }

  function Capacity(c: Configuration, nodes: seq<Node>): Outcome<Pos> {
    match Interpret(c)
    case Err(e) => Err(e)
    case Ok(r) =>
      if SlotsOver(r, nodes) == 0 then Err(CannotRun(if c.name == "" then "A solver configuration" else c.name))
      else Ok(SlotsOver(r, nodes))
  }

  function Suggested(total: Pos, parallelism: Pos): Pos {
    var size := (total + 2 * parallelism - 1) / (2 * parallelism);
    if size > 1 then size else 1
  }

  /** The least size at which two batches per parallel slot are enough for all pairs. */
  ghost predicate LeastSufficient(total: nat, parallelism: nat, size: nat) {
    && size >= 1
    && 2 * parallelism * size >= total
    && (size > 1 ==> 2 * parallelism * (size - 1) < total)
  }

  lemma SuggestedLeast(total: Pos, parallelism: Pos)
    ensures LeastSufficient(total, parallelism, Suggested(total, parallelism))
  {
    var slots: Pos := 2 * parallelism;
    RoundedUp(total, slots);
    var size := (total + slots - 1) / slots;
    assert size * slots == slots * size;
    if size > 1 {
      assert !(total <= (size - 1) * slots);
      assert (size - 1) * slots == slots * (size - 1);
    }
  }

  /** `Ok` exactly when every step accepts; otherwise the first complaint in the program's order. */
  ghost predicate IsEstimate(configurations: seq<Configuration>, total: int, maximum: string, nodes: seq<Node>,
                             result: Outcome<Estimate>) {
    if total < 1 then result == Err(NoPairs)
    else if exists i :: FirstBad(configurations, nodes, i) then
      exists i :: FirstBad(configurations, nodes, i) && result == Err(Capacity(configurations[i], nodes).error)
    else if configurations == [] then result == Err(NoConfiguration)
    else if Positive(maximum).None? then result == Err(BadMaximum)
    else
      && result.Ok?
      && |result.value.capacities| == |configurations|
      && (forall i :: 0 <= i < |configurations| ==>
          Capacity(configurations[i], nodes) == Ok(result.value.capacities[i]))
      && result.value.hardware in result.value.capacities
      && (forall n :: n in result.value.capacities ==> result.value.hardware <= n)
      && result.value.parallelism ==
         (if result.value.hardware < Positive(maximum).value then result.value.hardware else Positive(maximum).value)
      && LeastSufficient(total, result.value.parallelism, result.value.batchSize)
  }

  ghost predicate FirstBad(configurations: seq<Configuration>, nodes: seq<Node>, i: int) {
    && 0 <= i < |configurations|
    && Capacity(configurations[i], nodes).Err?
    && forall k :: 0 <= k < i ==> Capacity(configurations[k], nodes).Ok?
  }

  method CountSlots(r: Request, nodes: seq<Node>) returns (slots: nat)
    ensures slots == SlotsOver(r, nodes)
  {
    slots := 0;
    for j := 0 to |nodes|
      invariant slots == SlotsOver(r, nodes[..j])
    {
      assert nodes[..j + 1][..j] == nodes[..j];
      if CanRun(r, nodes[j]) {
        slots := slots + Slots(r, nodes[j]);
      }
    }
    assert nodes[..|nodes|] == nodes;
  }

  method Least(values: seq<Pos>) returns (least: Pos)
    requires values != []
    ensures least in values && forall n :: n in values ==> least <= n
  {
    least := values[0];
    for i := 1 to |values|
      invariant least in values
      invariant forall k :: 0 <= k < i ==> least <= values[k]
    {
      if values[i] < least {
        least := values[i];
      }
    }
  }

  method Suggest(configurations: seq<Configuration>, total: int, maximum: string, nodes: seq<Node>)
    returns (result: Outcome<Estimate>)
    ensures IsEstimate(configurations, total, maximum, nodes, result)
  {
    if total < 1 {
      return Err(NoPairs);
    }
    var capacities: seq<Pos> := [];
    for i := 0 to |configurations|
      invariant |capacities| == i
      invariant forall k :: 0 <= k < i ==> Capacity(configurations[k], nodes) == Ok(capacities[k])
    {
      var c := configurations[i];
      var read := Interpret(c);
      if read.Err? {
        assert FirstBad(configurations, nodes, i);
        return Err(read.error);
      }
      var slots := CountSlots(read.value, nodes);
      if slots == 0 {
        assert FirstBad(configurations, nodes, i);
        return Err(CannotRun(if c.name == "" then "A solver configuration" else c.name));
      }
      capacities := capacities + [slots];
    }
    assert !exists i :: FirstBad(configurations, nodes, i);
    if capacities == [] {
      return Err(NoConfiguration);
    }
    var hardware := Least(capacities);
    var bound := Positive(maximum);
    if bound.None? {
      return Err(BadMaximum);
    }
    var parallelism := if hardware < bound.value then hardware else bound.value;
    SuggestedLeast(total, parallelism);
    result := Ok(Estimate(Suggested(total, parallelism), hardware, parallelism, capacities));
  }
}
