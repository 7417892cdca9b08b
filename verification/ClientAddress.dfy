/** The address a request really came from: the forwarding chain read from the right, past the
    proxies the deployment operates. */
module ClientAddress {
  import opened Wrappers
  import opened Text
  import opened Addresses

  /** One entry, tolerating the port and the brackets some proxies write. */
  function ParseEntry(raw: string, std: StandardText): (r: Option<IpAddr>) {
    var entry := Trim(raw);
    if std.readAddress(entry).Some? then std.readAddress(entry)
    else if std.readSocket(entry).Some? then std.readSocket(entry)
    else if |entry| >= 2 && entry[0] == '[' && entry[|entry| - 1] == ']'
    then std.readAddress(entry[1..|entry| - 1])
    else None
  }

  /** Every piece as an address, or None if one of them is not. */
  function AllParsed(pieces: seq<string>, std: StandardText): (r: Option<seq<IpAddr>>)
    ensures r.Some? ==> |r.value| == |pieces|
    ensures r.Some? <==> forall i :: 0 <= i < |pieces| ==> ParseEntry(pieces[i], std).Some?
  {
    if pieces == [] then Some([])
    else
      var init := AllParsed(pieces[..|pieces| - 1], std);
      var last := ParseEntry(pieces[|pieces| - 1], std);
      if init.None? || last.None? then None else Some(init.value + [last.value])
  }

  lemma AllParsedStep(pieces: seq<string>, i: nat, std: StandardText)
    requires i < |pieces|
    ensures AllParsed(pieces[..i + 1], std)
            == if AllParsed(pieces[..i], std).None? || ParseEntry(pieces[i], std).None? then None
               else Some(AllParsed(pieces[..i], std).value + [ParseEntry(pieces[i], std).value])
    ensures ParseEntry(pieces[i], std).None? ==> AllParsed(pieces, std).None?
  {
    assert pieces[..i + 1][..i] == pieces[..i];
  }

  function Resolved(header: Option<string>, peer: IpAddr, hops: nat, std: StandardText): (address: IpAddr) {
    if hops == 0 || header.None? then peer
    else
      var parsed := AllParsed(Split(header.value, ','), std);
      if parsed.None? then peer
      else
        var chain := parsed.value + [peer];
        if |chain| < hops + 1 then peer else chain[|chain| - (hops + 1)]
  }

  method Resolve(forwardedFor: Option<string>, peer: IpAddr, trustedHops: nat, std: StandardText)
      returns (address: IpAddr)
    ensures address == Resolved(forwardedFor, peer, trustedHops, std)
  {
    if trustedHops == 0 {
      return peer;
    }
    if forwardedFor.None? {
      return peer;
    }
    var pieces := Split(forwardedFor.value, ',');
    var chain: seq<IpAddr> := [];
    for i := 0 to |pieces|
      invariant AllParsed(pieces[..i], std) == Some(chain)
    {
      AllParsedStep(pieces, i, std);
      var entry := ParseEntry(pieces[i], std);
      if entry.None? {
        return peer;
      }
      chain := chain + [entry.value];
    }
    assert pieces[..|pieces|] == pieces;
    chain := chain + [peer];
    return if |chain| < trustedHops + 1 then peer else chain[|chain| - (trustedHops + 1)];
  }

  // ------------------------------------------------------------------
  // Through proxies that append what they saw
  // ------------------------------------------------------------------

  /** A proxy of ours: its own address, and the blank text it writes after the comma. */
  datatype Proxy = Proxy(address: IpAddr, gap: string)

  datatype Hop = Hop(header: Option<string>, from: IpAddr)

  /** A proxy passes the request on with the peer it saw appended to the chain. */
  function Passed(hop: Hop, proxy: Proxy, std: StandardText): (after: Hop) {
    var seen := std.write(hop.from);
    Hop(Some(if hop.header.None? then seen else hop.header.value + [','] + (proxy.gap + seen)), proxy.address)
  }

  function Relayed(hop: Hop, proxies: seq<Proxy>, std: StandardText): (after: Hop)
    decreases |proxies|
  {
    if proxies == [] then hop
    else Passed(Relayed(hop, proxies[..|proxies| - 1], std), proxies[|proxies| - 1], std)
  }

  ghost predicate BlankGaps(proxies: seq<Proxy>) {
    forall i :: 0 <= i < |proxies| ==> Blank(proxies[i].gap)
  }

  function Pieces(header: Option<string>): (r: seq<string>) {
    if header.None? then [] else Split(header.value, ',')
  }

  /** The addresses the proxies wrote: the caller's, then each proxy's but the last. */
  function Seen(from: IpAddr, proxies: seq<Proxy>): (r: seq<IpAddr>)
    requires proxies != []
  {
    [from] + seq(|proxies| - 1, i requires 0 <= i < |proxies| - 1 => proxies[i].address)
  }

  lemma WrittenEntryParses(a: IpAddr, gap: string, std: StandardText)
    requires Faithful(std) && Blank(gap)
    ensures ',' !in gap + std.write(a) && ParseEntry(gap + std.write(a), std) == Some(a)
  {
    assert WritesBack(std, a);
    TrimPadded(gap, std.write(a));
    assert forall c :: c in gap + std.write(a) ==> c in gap || c in std.write(a);
    assert !IsWhitespace(',');
  }

  lemma PassedAppendsOneEntry(hop: Hop, proxy: Proxy, std: StandardText)
    requires Faithful(std) && Blank(proxy.gap)
    ensures exists entry :: ParseEntry(entry, std) == Some(hop.from)
              && Pieces(Passed(hop, proxy, std).header) == Pieces(hop.header) + [entry]
  {
    var seen := std.write(hop.from);
    if hop.header.None? {
      WrittenEntryParses(hop.from, "", std);
      assert "" + seen == seen;
      SplitWhole(seen, ',');
    } else {
      WrittenEntryParses(hop.from, proxy.gap, std);
      SplitJoin(hop.header.value, proxy.gap + seen, ',');
      SplitWhole(proxy.gap + seen, ',');
    }
  }

  lemma AllParsedAppend(pieces: seq<string>, entry: string, std: StandardText)
    ensures AllParsed(pieces + [entry], std)
            == if AllParsed(pieces, std).None? || ParseEntry(entry, std).None? then None
               else Some(AllParsed(pieces, std).value + [ParseEntry(entry, std).value])
  {
    assert (pieces + [entry])[..|pieces|] == pieces;
  }

  /** The addresses a header names, if all its entries are addresses; no header names none. */
  function Named(header: Option<string>, std: StandardText): (r: Option<seq<IpAddr>>) {
    AllParsed(Pieces(header), std)
  }

  function Followed(chain: Option<seq<IpAddr>>, tail: seq<IpAddr>): (r: Option<seq<IpAddr>>) {
    if chain.None? then None else Some(chain.value + tail)
  }

  lemma PassedFollows(hop: Hop, proxy: Proxy, std: StandardText)
    requires Faithful(std) && Blank(proxy.gap)
    ensures Named(Passed(hop, proxy, std).header, std) == Followed(Named(hop.header, std), [hop.from])
  {
    PassedAppendsOneEntry(hop, proxy, std);
    var entry :| ParseEntry(entry, std) == Some(hop.from)
                 && Pieces(Passed(hop, proxy, std).header) == Pieces(hop.header) + [entry];
    AllParsedAppend(Pieces(hop.header), entry, std);
  }

  lemma SeenByOneMore(from: IpAddr, proxies: seq<Proxy>)
    requires |proxies| >= 2
    ensures Seen(from, proxies)
            == Seen(from, proxies[..|proxies| - 1]) + [proxies[|proxies| - 2].address]
  {
  }

  lemma FollowedTwice(named: Option<seq<IpAddr>>, seen: seq<IpAddr>, more: seq<IpAddr>)
    ensures Followed(Followed(named, seen), more) == Followed(named, seen + more)
  {
    if named.Some? {
      assert named.value + seen + more == named.value + (seen + more);
    }
  }

  lemma RelayedStep(hop: Hop, proxies: seq<Proxy>, std: StandardText)
    requires Faithful(std) && BlankGaps(proxies) && proxies != []
    ensures var before, out := Relayed(hop, proxies[..|proxies| - 1], std), Relayed(hop, proxies, std);
            && out.from == proxies[|proxies| - 1].address && out.header.Some?
            && Named(out.header, std) == Followed(Named(before.header, std), [before.from])
  {
    PassedFollows(Relayed(hop, proxies[..|proxies| - 1], std), proxies[|proxies| - 1], std);
  }

  /** The last proxy adds one address to what the chain before it names. */
  lemma RelayedMore(hop: Hop, proxies: seq<Proxy>, std: StandardText, named: Option<seq<IpAddr>>)
    requires Faithful(std) && BlankGaps(proxies) && |proxies| >= 2
    requires var before := Relayed(hop, proxies[..|proxies| - 1], std);
             before.from == proxies[|proxies| - 2].address
             && Named(before.header, std) == Followed(named, Seen(hop.from, proxies[..|proxies| - 1]))
    ensures Named(Relayed(hop, proxies, std).header, std) == Followed(named, Seen(hop.from, proxies))
  {
    RelayedStep(hop, proxies, std);
    SeenByOneMore(hop.from, proxies);
    FollowedTwice(named, Seen(hop.from, proxies[..|proxies| - 1]), [proxies[|proxies| - 2].address]);
  }

  lemma RelayedOne(hop: Hop, proxies: seq<Proxy>, std: StandardText)
    requires Faithful(std) && BlankGaps(proxies) && |proxies| == 1
    ensures Named(Relayed(hop, proxies, std).header, std) == Followed(Named(hop.header, std), Seen(hop.from, proxies))
  {
    RelayedStep(hop, proxies, std);
    assert Relayed(hop, proxies[..0], std) == hop;
    assert Seen(hop.from, proxies) == [hop.from];
  }

  lemma {:induction false} RelayedNames(hop: Hop, proxies: seq<Proxy>, std: StandardText)
    requires Faithful(std) && BlankGaps(proxies) && proxies != []
    ensures Named(Relayed(hop, proxies, std).header, std) == Followed(Named(hop.header, std), Seen(hop.from, proxies))
    decreases |proxies|
  {
    var init := proxies[..|proxies| - 1];
    if init == [] {
      RelayedOne(hop, proxies, std);
    } else {
      RelayedNames(hop, init, std);
      RelayedStep(hop, init, std);
      RelayedMore(hop, proxies, std, Named(hop.header, std));
    }
  }

  /** What proxies that append the peer they saw leave: the last one as the peer, and a header that
      names what the caller's did and then the peers seen, or nothing if the caller's did not. */
  lemma RelayedChain(hop: Hop, proxies: seq<Proxy>, std: StandardText)
    requires Faithful(std) && BlankGaps(proxies) && proxies != []
    ensures var out := Relayed(hop, proxies, std);
            && out.from == proxies[|proxies| - 1].address
            && out.header.Some?
            && Named(out.header, std) == Followed(Named(hop.header, std), Seen(hop.from, proxies))
  {
    RelayedStep(hop, proxies, std);
    RelayedNames(hop, proxies, std);
  }

  /** Whatever chain a caller sends, through the proxies the deployment counts, the address resolved
      is the one the first of them saw; or, when an entry the caller wrote is not an address, the
      last proxy's. Nothing the caller writes can make it any other. */
  lemma ResolvesToTheFirstPeerSeen(sent: Option<string>, caller: IpAddr, proxies: seq<Proxy>, std: StandardText)
    requires Faithful(std) && BlankGaps(proxies) && proxies != []
    ensures var out := Relayed(Hop(sent, caller), proxies, std);
            Resolved(out.header, out.from, |proxies|, std)
            == if forall i :: 0 <= i < |Pieces(sent)| ==> ParseEntry(Pieces(sent)[i], std).Some?
               then caller else proxies[|proxies| - 1].address
  {
    RelayedChain(Hop(sent, caller), proxies, std);
  }
}
