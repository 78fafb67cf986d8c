/** The client a request is counted against when it may have come through proxies. */
module ClientIp {
  import opened GoText
  import opened Wrappers

  /**
   * What the scan needs to know of addresses: how text becomes one and where a host ends (None where that fails), which
   * of them are proxies, and the text a limiter counts them under.
   */
  datatype Net<!A> = Net(
    parse: string -> Option<A>,
    splitHost: string -> Option<string>,
    trusted: A -> bool,
    budget: A -> string)

  /** The hop settles the matter: it is not an address, or it is one no proxy of ours uses. */
  predicate Settles<A>(net: Net<A>, hop: string) {
    var a := net.parse(TrimSpace(hop));
    a.None? || !net.trusted(a.value)
  }

  predicate Rightmost<A>(net: Net<A>, hops: seq<string>, i: nat) {
    i < |hops| && Settles(net, hops[i]) && forall j | i < j < |hops| :: !Settles(net, hops[j])
  }

  /** The answer is the rightmost settling hop's: its budget, or the peer's if it is no address; all trusted gives the peer. */
  ghost predicate Judged<A>(net: Net<A>, hops: seq<string>, peer: string, r: string) {
    && (forall i: nat | Rightmost(net, hops, i) ::
          r == match net.parse(TrimSpace(hops[i])) case None => peer case Some(a) => net.budget(a))
    && ((forall i | 0 <= i < |hops| :: !Settles(net, hops[i])) ==> r == peer)
  }

  function Hops(lines: seq<string>): seq<string> {
    Split(Join(lines, ','), ',')
  }

  /** Header lines are read in order, each as its comma-separated hops. */
  lemma HopsInOrder(line: string, lines: seq<string>)
    ensures Hops([line]) == Split(line, ',')
    ensures lines != [] ==> Hops([line] + lines) == Split(line, ',') + Hops(lines)
  {
    if lines != [] {
      JoinAcross([line], lines, ',');
      SplitAcross(line, Join(lines, ','), ',');
    }
  }

  method ClientIP<A>(net: Net<A>, remoteAddr: string, forwardedLines: seq<string>) returns (r: string)
    ensures var remote := TrimSpace(remoteAddr);
            var host := match net.splitHost(remote) case Some(h) => h case None => remote;
            match net.parse(host)
            case None => r == if remote == "" then "unknown" else remote
            case Some(peer) =>
              if net.trusted(peer) then Judged(net, Hops(forwardedLines), net.budget(peer), r)
              else r == net.budget(peer)
  {
    hide TrimSpace, Hops;
    var remote := TrimSpace(remoteAddr);
    var host := remote;
    var split := net.splitHost(remote);
    if split.Some? {
      host := split.value;
    }
    var peerIP := net.parse(host);
    if peerIP.None? {
      if remote == "" {
        return "unknown";
      }
      return remote;
    }
    var peer := net.budget(peerIP.value);
    if !net.trusted(peerIP.value) {
      return peer;
    }
    var forwarded := Hops(forwardedLines);
    for i := |forwarded| downto 0
      invariant forall j | i <= j < |forwarded| :: !Settles(net, forwarded[j])
    {
      var candidate := net.parse(TrimSpace(forwarded[i]));
      if candidate.None? {
        OneRightmost(net, forwarded, i);
        return peer;
      }
      if !net.trusted(candidate.value) {
        OneRightmost(net, forwarded, i);
        return net.budget(candidate.value);
      }
    }
    return peer;
  }

  lemma OneRightmost<A>(net: Net<A>, hops: seq<string>, i: nat)
    requires Rightmost(net, hops, i)
    ensures forall j: nat | Rightmost(net, hops, j) :: j == i
  {
    hide Settles;
  }

  /** A hop whose right-hand neighbours are all trusted proxies decides: by its own address, or for the peer if it has none. */
  lemma RightmostDecides<A>(net: Net<A>, hops: seq<string>, peer: string, r: string, i: nat)
    requires Judged(net, hops, peer, r) && i < |hops|
    requires forall j | i < j < |hops| ::
               net.parse(TrimSpace(hops[j])).Some? && net.trusted(net.parse(TrimSpace(hops[j])).value)
    ensures var a := net.parse(TrimSpace(hops[i]));
            && (a.None? ==> r == peer)
            && (a.Some? && !net.trusted(a.value) ==> r == net.budget(a.value))
            && (a.Some? && net.trusted(a.value) && i == 0 ==> r == peer)
  {
    hide TrimSpace;
  }

  lemma JudgedUnique<A>(net: Net<A>, hops: seq<string>, peer: string, a: string, b: string)
    requires Judged(net, hops, peer, a) && Judged(net, hops, peer, b)
    ensures a == b
  {
    hide Settles, TrimSpace;
    if i :| 0 <= i < |hops| && Settles(net, hops[i]) {
      var k := LastSettling(net, hops);
    }
  }

  lemma {:induction false} LastSettling<A>(net: Net<A>, hops: seq<string>) returns (i: nat)
    requires exists j | 0 <= j < |hops| :: Settles(net, hops[j])
    ensures Rightmost(net, hops, i)
  {
    hide Settles;
    var last := |hops| - 1;
    if Settles(net, hops[last]) {
      i := last;
    } else {
      i := LastSettling(net, hops[..last]);
    }
  }

  /** Lines a client sends ahead of the proxies' own cannot change the answer once those settle it. */
  lemma EarlierLinesIgnored<A>(net: Net<A>, forged: seq<string>, lines: seq<string>, peer: string, r: string)
    requires lines != []
    requires exists j | 0 <= j < |Hops(lines)| :: Settles(net, Hops(lines)[j])
    requires Judged(net, Hops(lines), peer, r)
    ensures Judged(net, Hops(forged + lines), peer, r)
  {
    if forged == [] {
      assert forged + lines == lines;
    } else {
      JoinAcross(forged, lines, ',');
      SplitAcross(Join(forged, ','), Join(lines, ','), ',');
      hide Settles, Join, Split, TrimSpace;
      EarlierHopsIgnored(net, Hops(forged), Hops(lines), peer, r);
    }
  }

  lemma EarlierHopsIgnored<A>(net: Net<A>, forged: seq<string>, hops: seq<string>, peer: string, r: string)
    requires exists j | 0 <= j < |hops| :: Settles(net, hops[j])
    requires Judged(net, hops, peer, r)
    ensures Judged(net, forged + hops, peer, r)
  {
    hide Settles, TrimSpace;
    var k := LastSettling(net, hops);
    var all := forged + hops;
    assert all[|forged| + k] == hops[k];
    forall j | |forged| + k < j < |all| ensures !Settles(net, all[j]) {
      assert all[j] == hops[j - |forged|];
    }
    OneRightmost(net, all, |forged| + k);
  }
}
