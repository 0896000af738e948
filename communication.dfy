/**
 * The producer/consumer demonstration over one shared MyStock. Each body of a
 * `synchronized (stock) { ... }` block runs under the stock's monitor, so it is
 * modelled as one atomic step; a schedule chooses which thread runs its body next.
 * Waiting (`stock.wait()`) changes nothing, and wake-ups are not modelled.
 */
module Communication {
  import opened Wrappers
  import opened Decimal
  import opened Shop

  /** The three threads: the shopkeeper (producer) and two customers (consumers). */
  datatype Actor = Shopkeeper | Customer1 | Customer2

  const Prefix: string := "SHOPPING-NO."

  /** The code the shopkeeper stocks when its counter is `i`: `"SHOPPING-NO." + i`. */
  function Code(i: nat): string {
    Prefix + NatToString(i)
  }

  /** Different counters give different codes. */
  lemma CodeInjective(i: nat, j: nat)
    ensures Code(i) == Code(j) ==> i == j
  {
    if Code(i) == Code(j) {
      assert NatToString(i) == Code(i)[|Prefix|..];
      assert NatToString(j) == Code(j)[|Prefix|..];
      RenderingInjective(i, j);
    }
  }

  /** The first `n` codes the shopkeeper makes: SHOPPING-NO.1, ..., SHOPPING-NO.n. */
  function Produced(n: nat): (r: seq<string>)
    ensures |r| == n
  {
    if n == 0 then [] else Produced(n - 1) + [Code(n)]
  }

  /** The code at position `k` (counting from 0) is the one numbered `k + 1`. */
  lemma {:induction false} ProducedAt(n: nat, k: nat)
    requires k < n
    ensures Produced(n)[k] == Code(k + 1)
  {
    if k < n - 1 {
      ProducedAt(n - 1, k);
    }
  }

  /** No code is made twice. */
  lemma ProducedDistinct(n: nat)
    ensures forall a, b :: 0 <= a < b < n ==> Produced(n)[a] != Produced(n)[b]
  {
    forall a, b | 0 <= a < b < n
      ensures Produced(n)[a] != Produced(n)[b]
    {
      ProducedAt(n, a);
      ProducedAt(n, b);
      CodeInjective(a + 1, b + 1);
    }
  }

  /**
   * When what was bought followed by what is left is exactly the codes made so
   * far, the goods bought are the first codes in order, none twice, and the
   * stock holds the rest.
   */
  lemma Ledger(sold: seq<string>, left: seq<string>, made: nat)
    requires sold + left == Produced(made)
    ensures sold == Produced(made)[..|sold|] && left == Produced(made)[|sold|..]
    ensures forall a, b :: 0 <= a < b < |sold| ==> sold[a] != sold[b]
  {
    ProducedDistinct(made);
    assert sold == (sold + left)[..|sold|];
    assert left == (sold + left)[|sold|..];
    forall a, b | 0 <= a < b < |sold|
      ensures sold[a] != sold[b]
    {
      assert sold[a] == Produced(made)[a] && sold[b] == Produced(made)[b];
    }
  }

  /**
   * The shopkeeper's synchronized body: wait if the stock is full, otherwise
   * stock the code numbered `i` and advance the counter.
   */
  method ProducerStep(stock: MyStock, i: nat) returns (next: nat)
    modifies stock`ls
    ensures old(stock.IsFull()) ==> stock.ls == old(stock.ls) && next == i
    ensures !old(stock.IsFull()) ==> stock.ls == old(stock.ls) + [Code(i)] && next == i + 1
    ensures 0 <= stock.size && |old(stock.ls)| <= stock.size ==> |stock.ls| <= stock.size
  {
    if stock.IsFull() {
      next := i;
    } else {
      stock.AddStock(Code(i));
      next := i + 1;
    }
  }

  /**
   * A customer's synchronized body (both customers run the same one): wait if the
   * stock is empty, otherwise buy the oldest good. The good bought is never null.
   */
  method ConsumerStep(stock: MyStock) returns (bought: Option<string>)
    modifies stock`ls
    ensures old(stock.IsEmpty()) ==> bought == None && stock.ls == old(stock.ls)
    ensures !old(stock.IsEmpty()) ==> bought == Some(old(stock.ls)[0]) && stock.ls == old(stock.ls)[1..]
    ensures |stock.ls| <= |old(stock.ls)|
  {
    if stock.IsEmpty() {
      bought := None;
    } else {
      bought := stock.ReduceStock();
    }
  }

  /** How many steps of `schedule` the shopkeeper takes. */
  function ShopkeeperTurns(schedule: seq<Actor>): nat {
    multiset(schedule)[Shopkeeper]
  }

  lemma TurnsStep(schedule: seq<Actor>, t: nat)
    requires t < |schedule|
    ensures ShopkeeperTurns(schedule[..t + 1])
         == ShopkeeperTurns(schedule[..t]) + if schedule[t] == Shopkeeper then 1 else 0
  {
    assert schedule[..t + 1] == schedule[..t] + [schedule[t]];
  }

  /** Making the next code keeps "bought, then in stock" equal to the codes made. */
  lemma MakeStep(sold: seq<string>, ls: seq<string>, n: nat)
    requires sold + ls == Produced(n)
    ensures sold + (ls + [Code(n + 1)]) == Produced(n + 1)
  {
  }

  /** Selling the head of the stock keeps "bought, then in stock" unchanged. */
  lemma SellStep(sold: seq<string>, code: string, rest: seq<string>, n: nat)
    requires sold + ([code] + rest) == Produced(n)
    ensures (sold + [code]) + rest == Produced(n)
  {
  }

  /**
   * What every run keeps true after `t` turns, `turns` of them the shopkeeper's:
   * the goods bought followed by the stock are the codes made so far; the stock
   * stays within a non-negative capacity; capacity 0 lets nothing move; the
   * shopkeeper makes at most one code per turn of its own, and exactly one when
   * the capacity is negative; the customers buy at most one code per turn of theirs.
   */
  ghost predicate Accounted(size: int, sold: seq<string>, ls: seq<string>, made: nat, turns: nat, t: nat) {
    && sold + ls == Produced(made)
    && (0 <= size ==> |ls| <= size)
    && (size == 0 ==> sold == [] && ls == [] && made == 0)
    && made <= turns <= t
    && |sold| <= t - turns
    && (size < 0 ==> made == turns)
  }

  /** What a run has observable: the goods bought, the stock, and the shopkeeper's counter. */
  datatype State = State(sold: seq<string>, ls: seq<string>, i: nat)

  /**
   * Reference definition of one turn on a stock of capacity `size`: the shopkeeper
   * waits when full and otherwise stocks the code numbered `i`; a customer waits
   * when empty and otherwise buys the head.
   */
  function Step(size: int, s: State, who: Actor): State {
    if who == Shopkeeper then
      if |s.ls| == size then s else State(s.sold, s.ls + [Code(s.i)], s.i + 1)
    else
      if s.ls == [] then s else State(s.sold + [s.ls[0]], s.ls[1..], s.i)
  }

  /** Reference definition of a whole run from an empty stock and a counter at 1. */
  function Run(size: int, schedule: seq<Actor>): State {
    if schedule == [] then State([], [], 1)
    else Step(size, Run(size, schedule[..|schedule| - 1]), schedule[|schedule| - 1])
  }

  /** Extending the schedule by one turn extends the run by one step. */
  lemma RunStep(size: int, schedule: seq<Actor>, t: nat)
    requires t < |schedule|
    ensures Run(size, schedule[..t + 1]) == Step(size, Run(size, schedule[..t]), schedule[t])
  {
    assert schedule[..t + 1][..t] == schedule[..t];
  }

  /** One step keeps the run's invariant. */
  lemma StepAccounted(size: int, s: State, who: Actor, turns: nat, t: nat)
    requires s.i >= 1 && Accounted(size, s.sold, s.ls, s.i - 1, turns, t)
    ensures Step(size, s, who).i >= 1
    ensures Accounted(size, Step(size, s, who).sold, Step(size, s, who).ls, Step(size, s, who).i - 1,
                      turns + if who == Shopkeeper then 1 else 0, t + 1)
  {
    if who == Shopkeeper {
      if |s.ls| != size {
        MakeStep(s.sold, s.ls, s.i - 1);
      }
    } else if s.ls != [] {
      assert s.ls == [s.ls[0]] + s.ls[1..];
      SellStep(s.sold, s.ls[0], s.ls[1..], s.i - 1);
    }
  }

  /** Every run, under every schedule, keeps the invariant. */
  lemma {:induction false} RunAccounted(size: int, schedule: seq<Actor>)
    ensures Run(size, schedule).i >= 1
    ensures Accounted(size, Run(size, schedule).sold, Run(size, schedule).ls, Run(size, schedule).i - 1,
                      ShopkeeperTurns(schedule), |schedule|)
  {
    if schedule != [] {
      var n := |schedule| - 1;
      RunAccounted(size, schedule[..n]);
      TurnsStep(schedule, n);
      assert schedule[..n + 1] == schedule;
      StepAccounted(size, Run(size, schedule[..n]), schedule[n], ShopkeeperTurns(schedule[..n]), n);
    }
  }

  /**
   * One scheduled turn: the thread `who` runs its synchronized body once. The
   * shopkeeper's counter `i` is one past the codes made; a bought code is
   * appended to `sold`.
   */
  method Turn(stock: MyStock, who: Actor, i: nat, sold: seq<string>)
    returns (next: nat, sold': seq<string>)
    modifies stock`ls
    ensures who == Shopkeeper && old(stock.IsFull()) ==> stock.ls == old(stock.ls) && next == i && sold' == sold
    ensures who == Shopkeeper && !old(stock.IsFull()) ==> stock.ls == old(stock.ls) + [Code(i)] && next == i + 1 && sold' == sold
    ensures who != Shopkeeper && old(stock.ls) == [] ==> stock.ls == [] && next == i && sold' == sold
    ensures who != Shopkeeper && old(stock.ls) != [] ==> stock.ls == old(stock.ls)[1..] && next == i && sold' == sold + [old(stock.ls)[0]]
    ensures State(sold', stock.ls, next) == Step(stock.size, State(sold, old(stock.ls), i), who)
  {
    sold' := sold;
    if who == Shopkeeper {
      next := ProducerStep(stock, i);
    } else {
      next := i;
      var bought := ConsumerStep(stock);
      if bought.Some? {
        sold' := sold + [bought.value];
      }
    }
  }

  /**
   * The ThreadsCommunication demonstration: a fresh MyStock of capacity `size`
   * (20 in the demonstration), a shopkeeper counting from 1, and the three
   * threads' synchronized bodies run in the order `schedule` gives. Returns the
   * goods the customers bought in order, the goods left in stock, and how many
   * codes the shopkeeper made.
   */
  method ThreadsCommunication(size: int, schedule: seq<Actor>)
    returns (sold: seq<string>, left: seq<string>, made: nat)
    ensures sold + left == Produced(made)
    ensures sold == Produced(made)[..|sold|] && left == Produced(made)[|sold|..]
    ensures forall a, b :: 0 <= a < b < |sold| ==> sold[a] != sold[b]
    ensures 0 <= size ==> |left| <= size
    ensures size == 0 ==> sold == [] && left == [] && made == 0
    ensures made <= ShopkeeperTurns(schedule)
    ensures |sold| <= |schedule| - ShopkeeperTurns(schedule)
    ensures size < 0 ==> made == ShopkeeperTurns(schedule)
    ensures Run(size, schedule).sold == sold && Run(size, schedule).ls == left
    ensures Run(size, schedule).i == made + 1
  {
    var stock := new MyStock(size);
    var i: nat := 1;
    sold := [];
    var t := 0;
    while t < |schedule|
      invariant 0 <= t <= |schedule| && stock.size == size
      invariant Run(size, schedule[..t]) == State(sold, stock.ls, i)
    {
      RunStep(size, schedule, t);
      i, sold := Turn(stock, schedule[t], i, sold);
      t := t + 1;
    }
    assert schedule[..t] == schedule;
    RunAccounted(size, schedule);
    left := stock.ls;
    made := i - 1;
    Ledger(sold, left, made);
  }
}
