/** The shares of the most common clients, merged by weight (dhtcore/src/History.cpp). */
module ClientShares {
  datatype Client = Client(name: string)

  datatype Share = Share(client: Client, share: real)

  function Names(shares: seq<Share>): (r: seq<Client>)
    ensures |r| == |shares|
  {
    seq(|shares|, (i: nat) requires i < |shares| => shares[i].client)
  }

  predicate Distinct(names: seq<Client>) {
    forall i, j :: 0 <= i < j < |names| ==> names[i] != names[j]
  }

  /** What a list gives a client in all; nothing if it does not list it. */
  function ShareOf(shares: seq<Share>, client: Client): real {
    if shares == [] then 0.0
    else
      var last := shares[|shares| - 1];
      ShareOf(shares[..|shares| - 1], client) + if last.client == client then last.share else 0.0
  }

  /** The clients of `shares` that are not known yet, each once. */
  function NewNames(known: seq<Client>, shares: seq<Share>): (r: seq<Client>) {
    if shares == [] then []
    else
      var front, name := NewNames(known, shares[..|shares| - 1]), shares[|shares| - 1].client;
      if name in known || name in front then front else front + [name]
  }

  function Order(older: seq<Share>, newer: seq<Share>): seq<Client> {
    Names(older) + NewNames(Names(older), newer)
  }

  function Merged(older: seq<Share>, wa: real, newer: seq<Share>, wb: real): (r: seq<Share>)
    requires wa >= 1.0 && wb >= 1.0
    ensures |r| == |Order(older, newer)|
  {
    var order := Order(older, newer);
    seq(|order|, (i: nat) requires i < |order| =>
      Share(order[i], (ShareOf(older, order[i]) * wa + ShareOf(newer, order[i]) * wb) / (wa + wb)))
  }

  lemma {:induction false} NewNamesAre(known: seq<Client>, shares: seq<Share>)
    ensures Distinct(NewNames(known, shares))
    ensures forall n :: n in NewNames(known, shares) <==> n in Names(shares) && n !in known
  {
    if shares != [] {
      var front := shares[..|shares| - 1];
      NewNamesAre(known, front);
      assert Names(shares) == Names(front) + [shares[|shares| - 1].client];
    }
  }

  lemma {:induction false} NotListed(shares: seq<Share>, client: Client)
    requires client !in Names(shares)
    ensures ShareOf(shares, client) == 0.0
  {
    if shares != [] {
      var front := shares[..|shares| - 1];
      assert Names(shares) == Names(front) + [shares[|shares| - 1].client];
      NotListed(front, client);
    }
  }

  lemma DistinctFront(names: seq<Client>, n: nat)
    requires Distinct(names) && n <= |names|
    ensures Distinct(names[..n])
  {}

  lemma DistinctConcat(a: seq<Client>, b: seq<Client>)
    requires Distinct(a) && Distinct(b) && forall n :: n in b ==> n !in a
    ensures Distinct(a + b)
  {
    var all := a + b;
    forall i, j | 0 <= i < j < |all| ensures all[i] != all[j] {
      assert i < |a| <= j ==> all[i] in a && all[j] in b;
    }
  }

  /** A client listed once has the share it is listed with. */
  lemma {:induction false} ListedOnce(shares: seq<Share>, i: nat)
    requires i < |shares| && Distinct(Names(shares))
    ensures ShareOf(shares, shares[i].client) == shares[i].share
  {
    var n := |shares| - 1;
    var front := shares[..n];
    assert Names(shares)[..n] == Names(front);
    DistinctFront(Names(shares), n);
    if i < n {
      assert Names(shares)[i] == shares[i].client && Names(shares)[n] == shares[n].client;
      ListedOnce(front, i);
    } else {
      forall k | 0 <= k < n ensures Names(front)[k] != shares[n].client {
        assert Names(shares)[k] == Names(front)[k] && Names(shares)[n] == shares[n].client;
      }
      NotListed(front, shares[n].client);
    }
  }

  lemma MergedNames(older: seq<Share>, wa: real, newer: seq<Share>, wb: real)
    requires wa >= 1.0 && wb >= 1.0
    ensures Names(Merged(older, wa, newer, wb)) == Order(older, newer)
    ensures Distinct(Names(older)) ==> Distinct(Order(older, newer))
    ensures forall n :: n in Order(older, newer) <==> n in Names(older) || n in Names(newer)
  {
    hide ShareOf, NewNames;
    NewNamesAre(Names(older), newer);
    if Distinct(Names(older)) {
      DistinctConcat(Names(older), NewNames(Names(older), newer));
    }
  }

  lemma MergedAt(older: seq<Share>, wa: real, newer: seq<Share>, wb: real, i: nat)
    requires wa >= 1.0 && wb >= 1.0 && i < |Merged(older, wa, newer, wb)|
    ensures var x := Merged(older, wa, newer, wb)[i];
            && x.client == Names(Merged(older, wa, newer, wb))[i]
            && x.share * (wa + wb) == ShareOf(older, x.client) * wa + ShareOf(newer, x.client) * wb
  {
    hide ShareOf, Order;
    var n := Order(older, newer)[i];
    Balanced(ShareOf(older, n), wa, ShareOf(newer, n), wb);
  }

  /** Merging keeps every client's weighted share: one missing on a side had none there. */
  lemma MergedConserves(older: seq<Share>, wa: real, newer: seq<Share>, wb: real, client: Client)
    requires wa >= 1.0 && wb >= 1.0 && Distinct(Names(older))
    ensures Distinct(Names(Merged(older, wa, newer, wb)))
    ensures ShareOf(Merged(older, wa, newer, wb), client) * (wa + wb)
            == ShareOf(older, client) * wa + ShareOf(newer, client) * wb
  {
    hide ShareOf, Merged, Order, Names, Distinct;
    var out := Merged(older, wa, newer, wb);
    MergedNames(older, wa, newer, wb);
    if client in Names(out) {
      var i :| 0 <= i < |out| && Names(out)[i] == client;
      ListedOnce(out, i);
      MergedAt(older, wa, newer, wb, i);
    } else {
      NotListed(out, client);
      NotListed(older, client);
      NotListed(newer, client);
    }
  }

  lemma Balanced(a: real, wa: real, b: real, wb: real)
    requires wa >= 1.0 && wb >= 1.0
    ensures (a * wa + b * wb) / (wa + wb) * (wa + wb) == a * wa + b * wb
  {}

  /** The same times a weight, added up share by share. */
  function Weighted(shares: seq<Share>, w: real, client: Client): real {
    if shares == [] then 0.0
    else
      var last := shares[|shares| - 1];
      Weighted(shares[..|shares| - 1], w, client) + if last.client == client then last.share * w else 0.0
  }

  lemma {:induction false} WeightedIs(shares: seq<Share>, w: real, client: Client)
    ensures Weighted(shares, w, client) == ShareOf(shares, client) * w
  {
    if shares != [] {
      WeightedIs(shares[..|shares| - 1], w, client);
    }
  }

  /** A client not met yet counts as nothing. */
  function Got(shares: map<Client, real>, client: Client): real {
    if client in shares then shares[client] else 0.0
  }

  function Plus(shares: map<Client, real>, x: Share, w: real): map<Client, real> {
    shares[x.client := Got(shares, x.client) + x.share * w]
  }

  /** What has been added up for each client so far. */
  ghost predicate Totals(shares: map<Client, real>, order: seq<Client>, older: seq<Share>, wa: real, newer: seq<Share>, wb: real) {
    && order == Order(older, newer)
    && (forall n :: n in shares <==> n in order)
    && (forall n :: Got(shares, n) == Weighted(older, wa, n) + Weighted(newer, wb, n))
  }

  lemma OneMore(shares: seq<Share>, x: Share, w: real)
    ensures forall n :: Weighted(shares + [x], w, n) == Weighted(shares, w, n) + if n == x.client then x.share * w else 0.0
    ensures Names(shares + [x]) == Names(shares) + [x.client]
    ensures forall known :: NewNames(known, shares + [x]) ==
              NewNames(known, shares) + if x.client in known || x.client in NewNames(known, shares) then [] else [x.client]
  {
    assert (shares + [x])[..|shares|] == shares;
  }

  lemma OneOlder(shares: map<Client, real>, order: seq<Client>, older: seq<Share>, wa: real, wb: real, x: Share)
    requires Totals(shares, order, older, wa, [], wb)
    ensures Totals(Plus(shares, x, wa), order + [x.client], older + [x], wa, [], wb)
  {
    hide Weighted, Names;
    OneMore(older, x, wa);
    assert NewNames(Names(older), []) == [] && NewNames(Names(older + [x]), []) == [];
    assert forall n :: n in Plus(shares, x, wa) <==> n in shares || n == x.client;
  }

  lemma OneNewer(
    shares: map<Client, real>, order: seq<Client>, older: seq<Share>, wa: real, newer: seq<Share>, wb: real, x: Share)
    requires Totals(shares, order, older, wa, newer, wb)
    ensures Totals(Plus(shares, x, wb), if x.client in shares then order else order + [x.client], older, wa, newer + [x], wb)
  {
    hide Weighted, Names, NewNames;
    OneMore(newer, x, wb);
    assert forall n :: n in Plus(shares, x, wb) <==> n in shares || n == x.client;
  }

  method Merge(older: seq<Share>, wa: real, newer: seq<Share>, wb: real) returns (out: seq<Share>)
    requires wa >= 1.0 && wb >= 1.0
    ensures out == Merged(older, wa, newer, wb)
  {
    hide Totals, Order, ShareOf, NewNames, Plus;
    var shares: map<Client, real>, order: seq<Client> := map[], [];
    NoTotals(wa, wb);
    for i := 0 to |older|
      invariant Totals(shares, order, older[..i], wa, [], wb)
    {
      OneOlder(shares, order, older[..i], wa, wb, older[i]);
      assert older[..i + 1] == older[..i] + [older[i]];
      shares := Plus(shares, older[i], wa);
      order := order + [older[i].client];
    }
    assert older[..|older|] == older && newer[..0] == [];
    for i := 0 to |newer|
      invariant Totals(shares, order, older, wa, newer[..i], wb)
    {
      OneNewer(shares, order, older, wa, newer[..i], wb, newer[i]);
      assert newer[..i + 1] == newer[..i] + [newer[i]];
      if newer[i].client !in shares {
        order := order + [newer[i].client];
      }
      shares := Plus(shares, newer[i], wb);
    }
    assert newer[..|newer|] == newer;
    out := Quotients(shares, order, older, wa, newer, wb);
  }

  lemma NoTotals(wa: real, wb: real)
    ensures Totals(map[], [], [], wa, [], wb)
  {}

  method Quotients(shares: map<Client, real>, order: seq<Client>, ghost older: seq<Share>, wa: real, ghost newer: seq<Share>, wb: real)
    returns (out: seq<Share>)
    requires wa >= 1.0 && wb >= 1.0 && Totals(shares, order, older, wa, newer, wb)
    ensures out == Merged(older, wa, newer, wb)
  {
    hide ShareOf, Order, Weighted;
    out := [];
    for i := 0 to |order|
      invariant |out| == i && forall k :: 0 <= k < i ==> out[k] == Merged(older, wa, newer, wb)[k]
    {
      WeightedIs(older, wa, order[i]);
      WeightedIs(newer, wb, order[i]);
      assert order[i] in order && Got(shares, order[i]) == shares[order[i]];
      out := out + [Share(order[i], shares[order[i]] / (wa + wb))];
    }
  }
}
