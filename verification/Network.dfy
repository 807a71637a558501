/** The messages of the pre-position protocol: one order to every daemon for every job, one answer back for
    every order handled, and any of them may get lost. */
module Network {

  /** A daemon's part in a job. */
  datatype Part = Part(daemon: nat, nspace: string)

  datatype Answer = Answer(part: Part, status: int)

  datatype Net = Net(
    jobs: set<string>,           // jobs whose order went out
    orders: multiset<Part>,      // orders on their way
    answers: multiset<Answer>,   // answers on their way
    answered: map<Part, int>,    // what has been answered
    counted: set<Part>,          // whose answers have reached the launcher
    lost: set<Part>)             // whose order or answer never will

  /** One order for each of the first `n` daemons. */
  function ToAll(n: nat, nspace: string): (r: multiset<Part>)
    ensures forall p :: p in r <==> p.daemon < n && p.nspace == nspace
    ensures forall p :: p in r ==> r[p] == 1
  {
    if n == 0 then multiset{} else ToAll(n - 1, nspace) + multiset{Part(n - 1, nspace)}
  }

  const EMPTY := Net({}, multiset{}, multiset{}, map[], {}, {})

  function Broadcast(net: Net, nspace: string, n: nat): Net {
    net.(jobs := net.jobs + {nspace}, orders := net.orders + ToAll(n, nspace))
  }

  function Replied(net: Net, p: Part, status: int): Net {
    net.(orders := net.orders - multiset{p}, answered := net.answered[p := status],
         answers := net.answers + multiset{Answer(p, status)})
  }

  function Delivered(net: Net, a: Answer): Net {
    net.(answers := net.answers - multiset{a}, counted := net.counted + {a.part})
  }

  function OrderLost(net: Net, p: Part): Net {
    net.(orders := net.orders - multiset{p}, lost := net.lost + {p})
  }

  function AnswerLost(net: Net, a: Answer): Net {
    net.(answers := net.answers - multiset{a}, lost := net.lost + {a.part})
  }

  /** An order on its way: the only one for its part, which has not been answered, counted or lost. */
  ghost predicate OrderKept(net: Net, p: Part) {
    net.orders[p] == 1 && p !in net.answered && p !in net.lost && p !in net.counted
  }

  /** An answer on its way: the only one for its part, as it was given, and not counted or lost. */
  ghost predicate AnswerKept(net: Net, a: Answer) {
    && net.answers[a] == 1 && a.part in net.answered && net.answered[a.part] == a.status
    && a.part !in net.lost && a.part !in net.counted
  }

  ghost predicate Known(net: Net, p: Part, n: nat) {
    p.daemon < n && p.nspace in net.jobs
  }

  /** The part's order or answer is on its way, or has arrived, or is lost. */
  ghost predicate Accounted(net: Net, p: Part) {
    || p in net.orders
    || (p in net.answered && Answer(p, net.answered[p]) in net.answers)
    || p in net.counted
    || p in net.lost
  }

  ghost predicate Kept(net: Net, n: nat) {
    && (forall p :: p in net.orders ==> OrderKept(net, p) && Known(net, p, n))
    && (forall a :: a in net.answers ==> AnswerKept(net, a))
    && (forall p :: p in net.answered ==> Known(net, p, n))
    && (forall p :: p in net.lost ==> Known(net, p, n))
    && (forall p :: p in net.counted ==> p in net.answered && p !in net.lost)
    && (forall p :: Known(net, p, n) ==> Accounted(net, p))
  }

  lemma BroadcastKept(net: Net, nspace: string, n: nat)
    requires Kept(net, n) && nspace !in net.jobs
    ensures Kept(Broadcast(net, nspace, n), n)
  {
    var next := Broadcast(net, nspace, n);
    forall q | Known(next, q, n)
      ensures Accounted(next, q)
    {
      assert Known(net, q, n) ==> Accounted(net, q);
    }
  }

  lemma RepliedKept(net: Net, p: Part, status: int, n: nat)
    requires Kept(net, n) && p in net.orders
    ensures Kept(Replied(net, p, status), n)
  {
    var next := Replied(net, p, status);
    forall q | Known(next, q, n)
      ensures Accounted(next, q)
    {
      assert Known(net, q, n) ==> Accounted(net, q);
    }
  }

  lemma DeliveredKept(net: Net, a: Answer, n: nat)
    requires Kept(net, n) && a in net.answers
    ensures Kept(Delivered(net, a), n)
  {
    var next := Delivered(net, a);
    forall q | Known(next, q, n)
      ensures Accounted(next, q)
    {
      assert Known(net, q, n) ==> Accounted(net, q);
    }
  }

  lemma OrderLostKept(net: Net, p: Part, n: nat)
    requires Kept(net, n) && p in net.orders
    ensures Kept(OrderLost(net, p), n)
  {
    var next := OrderLost(net, p);
    forall q | Known(next, q, n)
      ensures Accounted(next, q)
    {
      assert Known(net, q, n) ==> Accounted(net, q);
    }
  }

  lemma AnswerLostKept(net: Net, a: Answer, n: nat)
    requires Kept(net, n) && a in net.answers
    ensures Kept(AnswerLost(net, a), n)
  {
    var next := AnswerLost(net, a);
    forall q | Known(next, q, n)
      ensures Accounted(next, q)
    {
      assert Known(net, q, n) ==> Accounted(net, q);
    }
  }
}
