/** lib/dispatcher/balanced-pool.js: weighted selection among upstream pools. */
module BalancedPool {
  import opened Wrappers

  ghost predicate Divides(d: nat, n: nat) {
    exists k: nat :: n == d * k
  }

  lemma DividesBy(d: nat, n: nat, k: nat)
    requires n == d * k
    ensures Divides(d, n)
  {
  }

  lemma DividesSum(d: nat, m: nat, n: nat, q: nat)
    requires Divides(d, m) && Divides(d, n)
    ensures Divides(d, q * m + n)
  {
    var j: nat :| m == d * j;
    var k: nat :| n == d * k;
    assert q * (d * j) + d * k == d * (q * j + k);
    DividesBy(d, q * m + n, q * j + k);
  }

  lemma PositiveFactor(d: nat, e: int)
    requires d * e > 0
    ensures e > 0
  {
  }

  lemma DividesRest(d: nat, m: nat, n: nat, q: nat)
    requires Divides(d, m) && Divides(d, q * m + n)
    ensures Divides(d, n)
  {
    var j: nat :| m == d * j;
    var k: nat :| q * m + n == d * k;
    if n == 0 {
      DividesBy(d, n, 0);
    } else {
      assert q * m == d * (q * j);
      assert n == d * k - d * (q * j) == d * (k - q * j);
      PositiveFactor(d, k - q * j);
      DividesBy(d, n, k - q * j);
    }
  }

  /** A step of Euclid keeps the common divisors. */
  lemma CommonDivisors(d: nat, a: nat, b: nat)
    requires b > 0
    ensures Divides(d, a) && Divides(d, b) <==> Divides(d, b) && Divides(d, a % b)
  {
    var q, r := a / b, a % b;
    assert a == q * b + r;
    if Divides(d, b) && Divides(d, r) {
      DividesSum(d, b, r, q);
    }
    if Divides(d, b) && Divides(d, a) {
      DividesRest(d, b, r, q);
    }
  }

  lemma DividesZero(d: nat)
    ensures Divides(d, 0)
  {
    DividesBy(d, 0, 0);
  }

  lemma DividesAtMost(d: nat, n: nat)
    requires Divides(d, n) && n > 0
    ensures 0 < d <= n
  {
    var k: nat :| n == d * k;
    PositiveFactor(d, k);
  }

  /** A number is known by its divisors. */
  lemma SameDivisors(m: nat, n: nat)
    requires forall d: nat :: Divides(d, m) <==> Divides(d, n)
    ensures m == n
  {
    DividesBy(m, m, 1);
    DividesBy(n, n, 1);
    assert Divides(m, n) && Divides(n, m);
    if m > 0 {
      DividesAtMost(n, m);
    }
    if n > 0 {
      DividesAtMost(m, n);
    }
  }

  function Gcd(a: nat, b: nat): (g: nat)
    ensures a > 0 || b > 0 ==> g > 0
    decreases b
  {
    if b == 0 then a else Gcd(b, a % b)
  }

  /** Its divisors are exactly the common divisors. */
  lemma {:induction false} GcdDivisors(a: nat, b: nat)
    ensures forall d: nat :: Divides(d, Gcd(a, b)) <==> Divides(d, a) && Divides(d, b)
    decreases b
  {
    if b == 0 {
      forall d: nat
        ensures Divides(d, 0)
      {
        DividesZero(d);
      }
    } else {
      GcdDivisors(b, a % b);
      forall d: nat
        ensures Divides(d, b) && Divides(d, a % b) <==> Divides(d, a) && Divides(d, b)
      {
        CommonDivisors(d, a, b);
      }
    }
  }

  method GetGreatestCommonDivisor(a: nat, b: nat) returns (g: nat)
    ensures g == Gcd(a, b)
    ensures forall d: nat :: Divides(d, g) <==> Divides(d, a) && Divides(d, b)
  {
    GcdDivisors(a, b);
    if a == 0 {
      return b;
    }
    var x, y := a, b;
    while y != 0
      invariant Gcd(x, y) == Gcd(a, b)
      decreases y
    {
      var t := y;
      y := x % y;
      x := t;
    }
    return x;
  }

  datatype Pool = Pool(origin: string, weight: nat, needDrain: bool, closed: bool, destroyed: bool) {
    predicate Available() {
      !needDrain && !closed && !destroyed
    }

    predicate Gone() {
      closed || destroyed
    }
  }

  /** The position of the visit numbered k in a scan of n pools that begins at `first`. */
  function Position(n: nat, first: nat, k: nat): (p: nat)
    requires first < n && k < n
    ensures p < n
  {
    if first + k < n then first + k else first + k - n
  }

  lemma NextPosition(n: nat, index: int)
    requires n > 0 && -1 <= index
    ensures 0 <= (index + 1) % n < n
    ensures index < n ==> (index + 1) % n == if index + 1 < n then index + 1 else 0
  {
  }

  /** A scan visits every pool once. */
  lemma ScanVisitsOnce(n: nat, first: nat, p: nat) returns (k: nat)
    requires first < n && p < n
    ensures k < n && Position(n, first, k) == p
    ensures forall j :: 0 <= j < n && Position(n, first, j) == p ==> j == k
  {
    k := if p >= first then p - first else p + n - first;
  }

  /** The pool of an origin that is neither closed nor destroyed; |clients| if there is none. */
  function FindLive(clients: seq<Pool>, origin: string): (i: nat)
    ensures i <= |clients| && (i < |clients| ==> clients[i].origin == origin && !clients[i].closed && !clients[i].destroyed)
    ensures forall j :: 0 <= j < i ==> clients[j].origin != origin || clients[j].closed || clients[j].destroyed
  {
    if clients == [] || (clients[0].origin == origin && !clients[0].Gone()) then 0 else 1 + FindLive(clients[1..], origin)
  }

  function Reweighted(clients: seq<Pool>, weight: nat): (r: seq<Pool>)
    ensures |r| == |clients| && forall i :: 0 <= i < |r| ==> r[i] == clients[i].(weight := weight)
  {
    seq(|clients|, i requires 0 <= i < |clients| => clients[i].(weight := weight))
  }

  /** The greatest common divisor of all weights; zero for no pools. */
  function GcdOf(clients: seq<Pool>): (g: nat) {
    if clients == [] then 0 else Gcd(clients[|clients| - 1].weight, GcdOf(clients[..|clients| - 1]))
  }

  ghost predicate DividesAll(d: nat, clients: seq<Pool>) {
    forall i :: 0 <= i < |clients| ==> Divides(d, clients[i].weight)
  }

  lemma {:induction false} GcdOfDivisors(clients: seq<Pool>)
    ensures forall d: nat :: Divides(d, GcdOf(clients)) <==> DividesAll(d, clients)
  {
    if clients == [] {
      forall d: nat
        ensures Divides(d, 0)
      {
        DividesZero(d);
      }
    } else {
      var k := |clients| - 1;
      GcdOfDivisors(clients[..k]);
      GcdDivisors(clients[k].weight, GcdOf(clients[..k]));
      forall d: nat
        ensures DividesAll(d, clients) <==> DividesAll(d, clients[..k]) && Divides(d, clients[k].weight)
      {
      }
    }
  }

  /** A divisor whose divisors are the common divisors of all weights is the one computed from them. */
  lemma ExactIsGcd(divisor: nat, clients: seq<Pool>)
    ensures (forall d: nat :: Divides(d, divisor) <==> DividesAll(d, clients)) <==> divisor == GcdOf(clients)
  {
    GcdOfDivisors(clients);
    if forall d: nat :: Divides(d, divisor) <==> DividesAll(d, clients) {
      SameDivisors(divisor, GcdOf(clients));
    }
  }

  function Without(clients: seq<Pool>, i: nat): seq<Pool>
    requires i < |clients|
  {
    clients[..i] + clients[i + 1..]
  }

  /** The order of the pools does not matter: one weight may be taken out and put back last. */
  lemma GcdOfOthers(clients: seq<Pool>, i: nat)
    requires i < |clients|
    ensures GcdOf(clients) == Gcd(clients[i].weight, GcdOf(Without(clients, i)))
  {
    hide Divides, DividesAll, Gcd, GcdOf;
    var others := Without(clients, i);
    GcdOfDivisors(clients);
    GcdOfDivisors(others);
    GcdDivisors(clients[i].weight, GcdOf(others));
    forall d: nat
      ensures DividesAll(d, clients) <==> DividesAll(d, others) && Divides(d, clients[i].weight)
    {
      DividesOthers(d, clients, i);
    }
    SameDivisors(GcdOf(clients), Gcd(clients[i].weight, GcdOf(others)));
  }

  lemma DividesOthers(d: nat, clients: seq<Pool>, i: nat)
    requires i < |clients|
    ensures DividesAll(d, clients) <==> DividesAll(d, Without(clients, i)) && Divides(d, clients[i].weight)
  {
    hide Divides;
    var others := Without(clients, i);
    if DividesAll(d, clients) {
      forall j | 0 <= j < |others|
        ensures Divides(d, others[j].weight)
      {
        assert others[j] == clients[if j < i then j else j + 1];
      }
    }
    if DividesAll(d, others) && Divides(d, clients[i].weight) {
      forall j | 0 <= j < |clients|
        ensures Divides(d, clients[j].weight)
      {
        assert j == i || clients[j] == others[if j < i then j else j - 1];
      }
    }
  }

  /** One more number changes a greatest common divisor exactly if that does not divide it. */
  lemma GcdUnchanged(w: nat, g: nat)
    ensures Gcd(w, g) == g <==> Divides(g, w)
  {
    GcdDivisors(w, g);
    DividesBy(g, g, 1);
    if Divides(g, w) {
      var k: nat :| w == g * k;
      forall d: nat | Divides(d, g)
        ensures Divides(d, w)
      {
        DividesZero(d);
        DividesSum(d, g, 0, k);
      }
      SameDivisors(Gcd(w, g), g);
    }
  }

  class BalancedPool {
    const maxWeightPerServer: nat
    const errorPenalty: nat
    var clients: seq<Pool>
    var greatestCommonDivisor: nat
    var currentWeight: int
    var index: int

    /** Weights stay between 1 and the maximum, and each live origin has one pool. */
    ghost predicate Valid()
      reads this
    {
      && 1 <= maxWeightPerServer && 1 <= errorPenalty
      && -1 <= index && 0 <= currentWeight <= maxWeightPerServer
      && (forall i :: 0 <= i < |clients| ==> 1 <= clients[i].weight <= maxWeightPerServer)
    }

    /** The stored divisor is the greatest common divisor of all weights. */
    ghost predicate DivisorExact()
      reads this
    {
      forall d: nat :: Divides(d, greatestCommonDivisor) <==> DividesAll(d, clients)
    }

    constructor (maxWeightPerServer: nat, errorPenalty: nat)
      ensures Valid() && DivisorExact() && clients == [] && greatestCommonDivisor == 0 && currentWeight == 0 && index == -1
      ensures this.maxWeightPerServer == if maxWeightPerServer == 0 then 100 else maxWeightPerServer
      ensures this.errorPenalty == if errorPenalty == 0 then 15 else errorPenalty
    {
      this.maxWeightPerServer := if maxWeightPerServer == 0 then 100 else maxWeightPerServer;
      this.errorPenalty := if errorPenalty == 0 then 15 else errorPenalty;
      clients, greatestCommonDivisor, currentWeight, index := [], 0, 0, -1;
      new;
      ExactIsGcd(0, []);
    }

    method UpdateBalancedPoolStats()
      requires Valid()
      modifies this`greatestCommonDivisor
      ensures Valid() && DivisorExact() && greatestCommonDivisor == GcdOf(clients)
      ensures clients != [] ==> greatestCommonDivisor > 0
    {
      var result := 0;
      for i := 0 to |clients|
        invariant result == GcdOf(clients[..i])
      {
        assert clients[..i + 1][..i] == clients[..i];
        result := GetGreatestCommonDivisor(clients[i].weight, result);
      }
      assert clients[..|clients|] == clients;
      greatestCommonDivisor := result;
      ExactIsGcd(result, clients);
    }

    /** A live origin is not added twice; a new one puts every weight back to the maximum. */
    method AddUpstream(origin: string)
      requires Valid()
      modifies this`clients, this`greatestCommonDivisor
      ensures Valid()
      ensures FindLive(old(clients), origin) < |old(clients)| ==> clients == old(clients) && greatestCommonDivisor == old(greatestCommonDivisor)
      ensures FindLive(old(clients), origin) == |old(clients)| ==>
                DivisorExact() && clients == Reweighted(old(clients) + [Pool(origin, 0, false, false, false)], maxWeightPerServer)
    {
      if FindLive(clients, origin) < |clients| {
        return;
      }
      clients := clients + [Pool(origin, 0, false, false, false)];
      ResetWeights();
      hide DivisorExact;
      UpdateBalancedPoolStats();
    }

    method ResetWeights()
      modifies this`clients
      ensures clients == Reweighted(old(clients), maxWeightPerServer)
    {
      ghost var was := clients;
      for i := 0 to |clients|
        invariant |clients| == |was|
        invariant forall j :: 0 <= j < |was| ==> clients[j] == if j < i then was[j].(weight := maxWeightPerServer) else was[j]
      {
        clients := clients[i := clients[i].(weight := maxWeightPerServer)];
      }
    }

    /** removeUpstream: the live pool of the origin leaves the list; the divisor stays what it was. It is exact then if
        and only if it is the divisor of the pools left; if it was exact before, that is if the divisor of the pools
        left divides the weight that went. */
    method RemoveUpstream(origin: string)
      requires Valid()
      modifies this`clients
      ensures Valid()
      ensures var i, was := FindLive(old(clients), origin), old(clients);
              clients == if i < |was| then Without(was, i) else was
      ensures var i, was := FindLive(old(clients), origin), old(clients);
              i < |was| ==>
                && (DivisorExact() <==> greatestCommonDivisor == GcdOf(Without(was, i)))
                && (old(DivisorExact()) ==> (DivisorExact() <==> Divides(GcdOf(Without(was, i)), was[i].weight)))
    {
      hide DivisorExact, Divides, Gcd, GcdOf;
      var i := FindLive(clients, origin);
      DivisorIsGcd();
      if i < |clients| {
        GcdOfOthers(clients, i);
        GcdUnchanged(clients[i].weight, GcdOf(Without(clients, i)));
        clients := clients[..i] + clients[i + 1..];
        DivisorIsGcd();
      }
    }

    lemma DivisorIsGcd()
      ensures DivisorExact() <==> greatestCommonDivisor == GcdOf(clients)
    {
      ExactIsGcd(greatestCommonDivisor, clients);
    }

    /** The connect event raises a weight, and leaves the divisor alone: it is exact then if and only if it is the
        greatest common divisor of the raised weight and the other weights. */
    method OnConnect(i: nat)
      requires Valid() && i < |clients|
      modifies this`clients
      ensures Valid() && |clients| == |old(clients)|
      ensures clients == old(clients)[i := old(clients)[i].(weight := clients[i].weight)]
      ensures clients[i].weight == Raised(old(clients)[i].weight)
      ensures DivisorExact() <==> greatestCommonDivisor == Gcd(Raised(old(clients)[i].weight), GcdOf(Without(old(clients), i)))
    {
      hide DivisorExact, Divides, Gcd, GcdOf;
      assert Without(clients[i := clients[i].(weight := Raised(clients[i].weight))], i) == Without(clients, i);
      var weight := clients[i].weight + errorPenalty;
      clients := clients[i := clients[i].(weight := if weight > maxWeightPerServer then maxWeightPerServer else weight)];
      GcdOfOthers(clients, i);
      DivisorIsGcd();
    }

    function Raised(weight: nat): (w: nat) {
      if weight + errorPenalty > maxWeightPerServer then maxWeightPerServer else weight + errorPenalty
    }

    /** A connection error, or a disconnect with a socket error, lowers it. */
    method OnConnectionError(i: nat)
      requires Valid() && i < |clients|
      modifies this`clients, this`greatestCommonDivisor
      ensures Valid() && DivisorExact() && greatestCommonDivisor == GcdOf(clients) && |clients| == |old(clients)|
      ensures clients == old(clients)[i := old(clients)[i].(weight := clients[i].weight)]
      ensures var weight := old(clients)[i].weight - errorPenalty; clients[i].weight == if weight < 1 then 1 else weight
    {
      var weight := clients[i].weight - errorPenalty;
      clients := clients[i := clients[i].(weight := if weight < 1 then 1 else weight)];
      UpdateBalancedPoolStats();
    }

    /** The current weight at the visit numbered k of a scan: each time position 0 comes round it drops by the
        divisor, or starts from the maximum again. */
    ghost function WeightAt(weight: int, first: nat, k: nat): (w: int)
      requires first < |clients| && k < |clients|
      reads `clients, `greatestCommonDivisor
    {
      var zero := if first == 0 then 0 else |clients| - first;
      if k < zero then weight
      else if weight - greatestCommonDivisor <= 0 then maxWeightPerServer else weight - greatestCommonDivisor
    }

    /** The pool visited k-th cannot be chosen at its visit. */
    ghost predicate Passed(weight: int, first: nat, k: nat)
      requires first < |clients| && k < |clients|
      reads `clients, `greatestCommonDivisor
    {
      var pool := clients[Position(|clients|, first, k)];
      pool.Available() ==> pool.weight < WeightAt(weight, first, k)
    }

    /** Chosen at visit k: the first pool that is available and has the current weight. */
    ghost predicate Hit(weight: int, first: nat, k: nat, chosen: nat)
      requires first < |clients| && k < |clients| && chosen < |clients|
      reads this
    {
      && chosen == Position(|clients|, first, k) && clients[chosen].Available()
      && clients[chosen].weight >= currentWeight == WeightAt(weight, first, k)
      && forall j :: 0 <= j < k ==> Passed(weight, first, j)
    }

    /** Of the available pools among the first `visits` visited, the heaviest, and of those the first. */
    ghost predicate Heaviest(first: nat, visits: nat, k: nat)
      requires first < |clients| && visits <= |clients|
      reads `clients
    {
      && k < visits && clients[Position(|clients|, first, k)].Available()
      && forall j :: 0 <= j < visits && clients[Position(|clients|, first, j)].Available() ==>
           var other, best := clients[Position(|clients|, first, j)].weight, clients[Position(|clients|, first, k)].weight;
           other <= best && (j < k ==> other < best)
    }

    ghost predicate NoneAvailable(first: nat, visits: nat)
      requires first < |clients| && visits <= |clients|
      reads `clients
    {
      forall j :: 0 <= j < visits ==> !clients[Position(|clients|, first, j)].Available()
    }

    /** One more visit, and the best so far. */
    lemma Another(first: nat, visits: nat, best: nat, found: bool)
      requires first < |clients| && visits < |clients|
      requires if found then Heaviest(first, visits, best) else NoneAvailable(first, visits)
      ensures found ==> best < visits && clients[Position(|clients|, first, best)].Available()
      ensures var pool := clients[Position(|clients|, first, visits)];
              if !pool.Available() then if found then Heaviest(first, visits + 1, best) else NoneAvailable(first, visits + 1)
              else if !found || pool.weight > clients[Position(|clients|, first, best)].weight then Heaviest(first, visits + 1, visits)
              else Heaviest(first, visits + 1, best)
    {
    }

    lemma Visited(weight: int, first: nat, k: nat)
      requires first < |clients| && k < |clients| && index == Position(|clients|, first, k) && currentWeight == WeightAt(weight, first, k)
      ensures Passed(weight, first, k) <==> (clients[index].Available() ==> clients[index].weight < currentWeight)
    {
    }

    lemma Found(first: nat, visits: nat, best: nat)
      requires first < |clients| && visits <= |clients| && Heaviest(first, visits, best)
      ensures best < visits && clients[Position(|clients|, first, best)].Available()
    {
    }

    lemma AllVisited(first: nat)
      requires first < |clients| && NoneAvailable(first, |clients|)
      ensures forall i :: 0 <= i < |clients| ==> !clients[i].Available()
    {
      forall i | 0 <= i < |clients|
        ensures !clients[i].Available()
      {
        var _ := ScanVisitsOnce(|clients|, first, i);
      }
    }

    /** Chosen after a whole scan without a hit: the heaviest available. */
    ghost predicate Fallback(weight: int, first: nat, k: nat, chosen: nat)
      requires first < |clients| && k < |clients| && chosen < |clients|
      reads this
    {
      && chosen == Position(|clients|, first, k) && currentWeight == clients[chosen].weight
      && (forall j :: 0 <= j < |clients| ==> Passed(weight, first, j))
      && Heaviest(first, |clients|, k)
    }

    /** A step of the scan: the index moves on, and the weight drops at position 0. */
    method Advance(ghost weight: int, ghost first: nat, ghost k: nat)
      requires Valid() && first < |clients| && k < |clients|
      requires if k == 0 then first == (index + 1) % |clients| && currentWeight == weight
               else index == Position(|clients|, first, k - 1) && currentWeight == WeightAt(weight, first, k - 1)
      modifies this`index, this`currentWeight
      ensures Valid() && index == Position(|clients|, first, k) && currentWeight == WeightAt(weight, first, k)
      ensures index == (if old(index) + 1 < |clients| then old(index) + 1 else 0) || old(index) >= |clients|
      ensures if index > 0 then currentWeight == old(currentWeight)
              else if old(currentWeight) <= greatestCommonDivisor then currentWeight == maxWeightPerServer
              else currentWeight == old(currentWeight) - greatestCommonDivisor
    {
      NextPosition(|clients|, index);
      index := (index + 1) % |clients|;
      if index == 0 {
        currentWeight := currentWeight - greatestCommonDivisor;
        if currentWeight <= 0 {
          currentWeight := maxWeightPerServer;
        }
      }
    }

    /** The loop of kGetDispatcher: up to the first hit, or over all pools, remembering the heaviest. */
    method Scan(ghost first: nat) returns (hit: bool, maxWeightIndex: int, ghost k: nat)
      requires Valid() && clients != [] && first == (index + 1) % |clients|
      modifies this`index, this`currentWeight
      ensures Valid()
      ensures hit ==> k < |clients| && 0 <= index < |clients| && Hit(old(currentWeight), first, k, index)
      ensures !hit ==> forall j :: 0 <= j < |clients| ==> Passed(old(currentWeight), first, j)
      ensures !hit && maxWeightIndex == -1 ==> NoneAvailable(first, |clients|)
      ensures !hit && maxWeightIndex != -1 ==>
                k < |clients| && Heaviest(first, |clients|, k) && maxWeightIndex == Position(|clients|, first, k)
    {
      var n := |clients|;
      ghost var weight := currentWeight;
      assert NoneAvailable(first, 0);
      hide Position, WeightAt, NoneAvailable, Heaviest, Passed;
      var counter := 0;
      maxWeightIndex, k := -1, 0;
      while counter < n
        invariant counter <= n && Valid()
        invariant counter == 0 ==> index == old(index) && currentWeight == weight
        invariant counter > 0 ==> index == Position(n, first, counter - 1) && currentWeight == WeightAt(weight, first, counter - 1)
        invariant forall j :: 0 <= j < counter ==> Passed(weight, first, j)
        invariant if maxWeightIndex == -1 then NoneAvailable(first, counter)
                  else k < counter && Heaviest(first, counter, k) && maxWeightIndex == Position(n, first, k)
      {
        ghost var visit := counter;
        counter := counter + 1;
        Advance(weight, first, visit);
        var pool := clients[index];
        Another(first, visit, k, maxWeightIndex != -1);
        Visited(weight, first, visit);
        if !pool.Available() {
          continue;
        }
        if maxWeightIndex == -1 || pool.weight > clients[maxWeightIndex].weight {
          maxWeightIndex := index;
          k := visit;
        }
        if pool.weight >= currentWeight {
          return true, maxWeightIndex, visit;
        }
      }
      return false, maxWeightIndex, k;
    }

    /** kGetDispatcher: the position of the pool chosen, or none. Missing upstreams are an error to the caller. */
    method GetDispatcher() returns (chosen: Option<nat>, ghost visit: nat)
      requires Valid() && clients != []
      modifies this`index, this`currentWeight
      ensures Valid()
      ensures chosen.None? <==> forall i :: 0 <= i < |clients| ==> clients[i].needDrain || clients[i].closed || clients[i].destroyed
      ensures var first := (old(index) + 1) % |clients|;
              chosen.Some? ==>
                && visit < |clients| && chosen.value < |clients| && index == chosen.value
                && !clients[index].needDrain && !clients[index].closed && !clients[index].destroyed
                && (Hit(old(currentWeight), first, visit, chosen.value) || Fallback(old(currentWeight), first, visit, chosen.value))
    {
      NextPosition(|clients|, index);
      ghost var first := (index + 1) % |clients|;
      var hit, maxWeightIndex;
      hit, maxWeightIndex, visit := Scan(first);
      if hit {
        assert clients[index].Available();
        return Some(index), visit;
      }
      if maxWeightIndex == -1 {
        AllVisited(first);
        return None, visit;
      }
      Found(first, |clients|, visit);
      currentWeight := clients[maxWeightIndex].weight;
      index := maxWeightIndex;
      return Some(maxWeightIndex), visit;
    }
  }

  /** When every pool is available at full weight, a round of calls gives each pool once, in order. */
  method Round(pool: BalancedPool) returns (chosen: seq<nat>)
    requires pool.Valid() && pool.clients != []
    requires forall i :: 0 <= i < |pool.clients| ==> pool.clients[i].Available() && pool.clients[i].weight == pool.maxWeightPerServer
    modifies pool`index, pool`currentWeight
    ensures |chosen| == |pool.clients|
    ensures forall i :: 0 <= i < |chosen| ==> chosen[i] == Position(|pool.clients|, (old(pool.index) + 1) % |pool.clients|, i)
    ensures forall p :: 0 <= p < |pool.clients| ==> p in chosen
  {
    var n := |pool.clients|;
    NextPosition(n, pool.index);
    ghost var first := (pool.index + 1) % n;
    chosen := [];
    for i := 0 to n
      invariant pool.Valid() && |chosen| == i
      invariant i == 0 ==> pool.index == old(pool.index)
      invariant i > 0 ==> pool.index == Position(n, first, i - 1)
      invariant forall j :: 0 <= j < i ==> chosen[j] == Position(n, first, j)
    {
      NextPosition(n, pool.index);
      ghost var start, weight := (pool.index + 1) % n, pool.currentWeight;
      var c;
      ghost var visit;
      assert pool.clients[0].Available();
      c, visit := pool.GetDispatcher();
      assert pool.clients[Position(n, start, 0)].Available();
      assert !pool.Passed(weight, start, 0);
      chosen := chosen + [c.value];
    }
    forall p | 0 <= p < n
      ensures p in chosen
    {
      var k := ScanVisitsOnce(n, first, p);
      assert chosen[k] == p;
    }
  }

  /** A divisor that was exact still divides all weights after one is raised exactly if it divides the raised one; that
      is less than being their greatest common divisor. */
  lemma RaisedWeight(clients: seq<Pool>, i: nat, weight: nat)
    requires i < |clients|
    ensures var raised, divisor := clients[i := clients[i].(weight := weight)], GcdOf(clients);
            && (DividesAll(divisor, raised) <==> Divides(divisor, weight))
            && (GcdOf(raised) == divisor ==> DividesAll(divisor, raised))
  {
    GcdOfDivisors(clients);
    DividesBy(GcdOf(clients), GcdOf(clients), 1);
    var raised := clients[i := clients[i].(weight := weight)];
    GcdOfDivisors(raised);
    assert DividesAll(GcdOf(clients), clients);
    assert DividesAll(GcdOf(clients), raised) ==> Divides(GcdOf(clients), raised[i].weight);
  }

  /** An error and a connect bring two pools back to weight 100, and leave the divisor that 85 and 100 have: it divides
      every weight, and is not their greatest common divisor. */
  method StaleDivisor() returns (pool: BalancedPool)
    ensures pool.Valid() && |pool.clients| == 2 && pool.clients[0].weight == pool.clients[1].weight == 100
    ensures pool.greatestCommonDivisor == 5 && !pool.DivisorExact() && DividesAll(5, pool.clients)
  {
    pool := EightyFiveAndHundred();
    pool.OnConnect(0);
    GcdOfTwo(pool.clients);
    GcdOf100And85();
    pool.DivisorIsGcd();
    DividesBy(5, 100, 20);
  }

  /** The pool with the lowered weight is removed, and the divisor stays 5 for a single pool of weight 100. */
  method StaleAfterRemoval() returns (pool: BalancedPool)
    ensures pool.Valid() && |pool.clients| == 1 && pool.clients[0].weight == 100
    ensures pool.greatestCommonDivisor == 5 && !pool.DivisorExact()
  {
    pool := EightyFiveAndHundred();
    pool.RemoveUpstream("http://a");
    assert GcdOf(pool.clients[..0]) == 0;
    pool.DivisorIsGcd();
  }

  method EightyFiveAndHundred() returns (pool: BalancedPool)
    ensures fresh(pool) && pool.Valid() && pool.maxWeightPerServer == 100 && pool.errorPenalty == 15
    ensures pool.clients == [Pool("http://a", 85, false, false, false), Pool("http://b", 100, false, false, false)]
    ensures pool.greatestCommonDivisor == 5 && pool.currentWeight == 0 && pool.index == -1
  {
    pool := new BalancedPool(100, 15);
    pool.AddUpstream("http://a");
    pool.AddUpstream("http://b");
    pool.OnConnectionError(0);
    GcdOfTwo(pool.clients);
    GcdOf100And85();
  }

  /** Of two pools with weights 85 and 100, the first gets the fourth request: by then the weight asked for has dropped
      from 100 by three times the divisor. */
  method FourthGoesLow() returns (pool: BalancedPool, chosen: seq<nat>)
    ensures chosen == [1, 1, 1, 0] && pool.currentWeight == 85
  {
    hide *;
    pool := EightyFiveAndHundred();
    chosen := [];
    for i := 0 to 3
      invariant fresh(pool) && pool.Valid() && pool.maxWeightPerServer == 100 && pool.greatestCommonDivisor == 5
      invariant pool.clients == [Pool("http://a", 85, false, false, false), Pool("http://b", 100, false, false, false)]
      invariant if i == 0 then pool.index == -1 && pool.currentWeight == 0 else pool.index == 1 && pool.currentWeight == 105 - 5 * i
      invariant chosen == [1, 1, 1][..i]
    {
      var c := HighOrLow(pool);
      chosen := chosen + [c];
    }
    var c := HighOrLow(pool);
    chosen := chosen + [c];
  }

  /** The next of the two: the first if the weight asked for has dropped to its own, and the second before. */
  method HighOrLow(pool: BalancedPool) returns (c: nat)
    requires pool.Valid() && pool.maxWeightPerServer == 100 && pool.greatestCommonDivisor == 5
    requires pool.clients == [Pool("http://a", 85, false, false, false), Pool("http://b", 100, false, false, false)]
    requires pool.index in {-1, 1} && pool.currentWeight in {0, 100, 95, 90}
    modifies pool`index, pool`currentWeight
    ensures pool.Valid() && pool.index == c
    ensures pool.currentWeight == if old(pool.currentWeight) == 0 then 100 else old(pool.currentWeight) - 5
    ensures c == if pool.currentWeight <= 85 then 0 else 1
  {
    ghost var weight := pool.currentWeight;
    assert pool.clients[1].Available();
    var chosen;
    ghost var visit;
    chosen, visit := pool.GetDispatcher();
    ghost var _, _ := pool.Passed(weight, 0, 0), pool.Passed(weight, 0, 1);
    c := chosen.value;
  }

  lemma GcdOfTwo(clients: seq<Pool>)
    requires |clients| == 2
    ensures GcdOf(clients) == Gcd(clients[1].weight, clients[0].weight)
  {
    assert clients[..1][..0] == [] && clients[..1][0] == clients[0];
    assert GcdOf(clients[..1]) == Gcd(clients[0].weight, GcdOf(clients[..1][..0]));
  }

  lemma GcdOf100And85()
    ensures Gcd(100, 85) == 5 && Gcd(100, 100) == 100
  {
    assert Gcd(100, 85) == Gcd(85, 15) == Gcd(15, 10) == Gcd(10, 5) == Gcd(5, 0);
    assert Gcd(100, 100) == Gcd(100, 0);
  }
}
