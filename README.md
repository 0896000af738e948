# ThreadsAndLock: the shop stock and its producer/consumer protocol

This project models the sequential core of the `ThreadsAndLock` threading demonstration.

- **`MyStock`** is the shop's stock. It is a FIFO queue of string codes, kept in a linked list, with a capacity `size` set by the constructor.
  - `addStock` appends a code at the tail.
  - `reduceStock` removes and returns the head, or null when the list is empty.
  - `isFull`, `isEmpty`, `getSize` and `getRemain` only read the state.
  - The queue never checks its capacity itself.
- **The `ThreadsCommunication` demonstration** has three threads over one `MyStock(20)`: a shopkeeper and two customers.
  - Each thread repeatedly runs a body inside `synchronized (stock)`.
  - The shopkeeper waits while the stock is full. Otherwise it stocks `"SHOPPING-NO." + i` and increments `i`, starting from 1.
  - A customer waits while the stock is empty. Otherwise it buys the oldest code.
  - Each synchronized body runs under the monitor, so the model treats it as one atomic step. A schedule (`seq<Actor>`) chooses which thread moves next. Waiting changes nothing.
  - `Step` and `Run` give a reference definition of one turn and of a whole run on values. The imperative `Turn` and `ThreadsCommunication` are proved to agree with it exactly.
  - Under every schedule the model proves the following.
    - The stock stays within its capacity.
    - The codes bought, in order, are the first codes the shopkeeper made, and none is bought twice.
    - The stock holds exactly the codes made but not yet bought.
- **`Stock`** is a Java `int` counter.
  - `addStock` adds one. At the largest int the addition wraps around, as Java's does.
  - `reduceStock` takes one away only when the count is positive.
  - The `ThreadState` demonstration adds twenty to `Stock(20)`. It then drains the counter with a loop that re-reads its bound `getRemain()` on every iteration. From 40 that loop prints 39 down to 20 and leaves 20.

Files:
- `wrappers.dfy`: `Option`, which stands for a reference that may be null.
- `decimal.dfy`: Java's decimal rendering of the producer's counter, and its inverse.
- `my_stock.dfy`: the `MyStock` class.
- `communication.dfy`: the guarded steps, the produced codes and the interleaving.
- `stock.dfy`: the `Stock` class and the `ThreadState` loops.

The model follows the code where it departs from a textbook bounded buffer, which would demand a positive capacity and offer a close operation:
- The code accepts any `int` capacity and has no close operation, so there is no error for a bad capacity and no closed state.
- With capacity 0, the stock is full and empty at once. No step ever changes anything, and `ThreadsCommunication` proves this.
- With a negative capacity, `isFull` never holds. The shopkeeper then never waits: `ThreadsCommunication` proves it makes one code per turn, while the customers buy at most one code per turn of theirs, so the stock grows without bound when the shopkeeper outpaces them.
- One customer calls `notifyAll` unconditionally and the other only after buying. This affects wake-ups only, never the stock.

## Model

| member | source | states |
|---|---|---|
| `Shop.MyStock.constructor` | src/main/java/com/jty/theads/ThreadsAndLock.java:399-402 | starts with an empty list and keeps the given capacity, whatever its sign |
| `Shop.MyStock.AddStock` | src/main/java/com/jty/theads/ThreadsAndLock.java:405-408 | the list becomes the old list followed by the code; only `ls` may change, so the capacity is untouched and not consulted |
| `Shop.MyStock.ReduceStock` | src/main/java/com/jty/theads/ThreadsAndLock.java:411-415 | on a non-empty list returns the head and leaves the tail; on an empty list returns None (null) and leaves the list empty; only `ls` may change |
| `Shop.MyStock.IsFull` | src/main/java/com/jty/theads/ThreadsAndLock.java:417-419 | holds exactly when the list length equals the capacity, which is possible only for a non-negative capacity |
| `Shop.MyStock.IsEmpty` | src/main/java/com/jty/theads/ThreadsAndLock.java:421-423 | holds exactly when the list has no element |
| `Shop.MyStock.GetSize` | src/main/java/com/jty/theads/ThreadsAndLock.java:425-427 | the capacity, which equals the list length exactly when the stock is full |
| `Shop.MyStock.GetRemain` | src/main/java/com/jty/theads/ThreadsAndLock.java:429-431 | the number of goods is never negative, is 0 exactly when the stock is empty, and equals the capacity exactly when it is full |
| `Decimal.NatToString` | src/main/java/com/jty/theads/ThreadsAndLock.java:331 | the text of the counter in `"SHOPPING-NO." + i` has at least one digit, only digits, and no leading zero unless it is `0` |
| `Decimal.ParseRendered` | src/main/java/com/jty/theads/ThreadsAndLock.java:331 | reading the rendered counter back as a number gives the counter |
| `Decimal.RenderingInjective` | src/main/java/com/jty/theads/ThreadsAndLock.java:331 | different counters render to different texts |
| `Communication.CodeInjective` | src/main/java/com/jty/theads/ThreadsAndLock.java:331 | different counters give different codes `"SHOPPING-NO." + i` |
| `Communication.Produced` | src/main/java/com/jty/theads/ThreadsAndLock.java:322-331 | the first n codes the shopkeeper makes, counting from 1, are n codes |
| `Communication.ProducedAt` | src/main/java/com/jty/theads/ThreadsAndLock.java:322-331 | the k-th code made (from 0) is the one numbered k + 1 |
| `Communication.ProducedDistinct` | src/main/java/com/jty/theads/ThreadsAndLock.java:322-331 | no code is made twice |
| `Communication.Ledger` | src/main/java/com/jty/theads/ThreadsAndLock.java:405-415 | if the goods bought followed by the stock are the codes made, then the goods bought are the first codes in order with no repeat, and the stock holds the rest |
| `Communication.ProducerStep` | src/main/java/com/jty/theads/ThreadsAndLock.java:325-337 | when full, the stock and the counter are unchanged; otherwise the code for `i` is appended and the counter becomes `i + 1`; a stock within a non-negative capacity stays within it |
| `Communication.ConsumerStep` | src/main/java/com/jty/theads/ThreadsAndLock.java:349-359 | models both customers' bodies (the second is at lines 370-380); when empty, nothing changes and nothing is bought; otherwise the head is bought, never null, and the tail remains; the stock never grows |
| `Communication.StepAccounted` | src/main/java/com/jty/theads/ThreadsAndLock.java:324-380 | one step of any thread keeps the run's invariant: bought-then-stocked equals the codes made; the stock stays within a non-negative capacity; capacity 0 moves nothing; at most one code is made per shopkeeper turn, and exactly one when the capacity is negative; at most one code is bought per customer turn |
| `Communication.RunAccounted` | src/main/java/com/jty/theads/ThreadsAndLock.java:318-391 | the invariant holds after every schedule, counted from an empty stock and a counter at 1 |
| `Communication.Turn` | src/main/java/com/jty/theads/ThreadsAndLock.java:324-380 | the named thread runs its synchronized body once: the shopkeeper leaves everything unchanged when full and otherwise appends the code for `i` and advances `i`; a customer leaves everything unchanged when the stock is empty and otherwise moves the head from the stock to the goods bought; the result is exactly one step of the reference definition `Step` |
| `Communication.ThreadsCommunication` | src/main/java/com/jty/theads/ThreadsAndLock.java:318-391 | under every schedule, the run ends exactly in the state the reference definition `Run` gives; the goods bought followed by the stock are exactly the codes made; at most one code is made per shopkeeper turn and at most one bought per customer turn; the goods bought are a prefix of them, with no repeat, and the stock is the rest; a non-negative capacity bounds the stock; capacity 0 moves nothing; a negative capacity never makes the shopkeeper wait |
| `Inventory.Stock.constructor` | src/main/java/com/jty/theads/ThreadsAndLock.java:280-282 | the count starts at the given value |
| `Inventory.Stock.AddStock` | src/main/java/com/jty/theads/ThreadsAndLock.java:285-288 | adds exactly one below the largest int, and wraps to the smallest int at it |
| `Inventory.Stock.ReduceStock` | src/main/java/com/jty/theads/ThreadsAndLock.java:291-296 | a positive count drops by exactly one and the new count is returned; otherwise the count is unchanged and 0 is returned; a non-negative count stays non-negative |
| `Inventory.Stock.GetRemain` | src/main/java/com/jty/theads/ThreadsAndLock.java:298-300 | the current count |
| `Inventory.Drain` | src/main/java/com/jty/theads/ThreadsAndLock.java:114-118 | from a positive n, reduces ceil(n/2) times, leaves floor(n/2), and prints n-1, n-2, … in turn; from n <= 0 prints nothing and changes nothing |
| `Inventory.ThreadState` | src/main/java/com/jty/theads/ThreadsAndLock.java:86-119 | `Stock(20)` plus twenty additions, then drained, prints 39 down to 20 and leaves 20 |

## Left out

- Threads, `synchronized`, `wait`, `notifyAll` and `Thread.sleep` are not modelled. Each synchronized body is one atomic step, and a wait is a step that changes nothing. Blocking, wake-up, liveness and deadlock freedom are therefore outside the model. The schedule parameter stands for the thread scheduler.
- `InterruptedException` handling is not modelled as such. An interrupt prints a stack trace and ends that thread's loop for good, because each `catch` sits outside its `while (true)`. A schedule that no longer names the thread covers this.
- `Communication.ProducerStep`: the shopkeeper's counter `i` is an unbounded natural number. Java's `int i` would wrap to negative after 2^31 - 1 codes, and the codes would then carry a minus sign; after 2^32 codes the counter comes back to 1 and codes repeat. So "no code is made twice" (`Communication.ProducedDistinct`, `Communication.ThreadsCommunication`) holds only of the unbounded counter. `Decimal.NatToString` covers only non-negative values for the same reason.
- `Shop.MyStock.constructor`: the capacity is an unbounded `int`. Java's is 32-bit, but the code never does arithmetic on it, so only the range of accepted values differs. The element limit of `LinkedList` is not modelled either.
- The raw-type `LinkedList` and the `(String)` cast are modelled as `seq<string>`, so a `ClassCastException` cannot arise.
- `ThreadSynchronized` is not modelled. Each of its threads creates its own lock, so the decrements race with no sequential meaning. Its commented-out block is dead code.
- `CallableTest`/`UserThread` (executor service and futures), `ThreadPriority` (scheduler hints) and the thread-state polling in `ThreadState` and `main` only print. They are not modelled.
- All console output is left out. `Inventory.Drain` returns the values it would print instead, and `Communication.ThreadsCommunication` returns the codes the customers buy.
