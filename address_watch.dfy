/**
 * The agent's address watcher: it resolves the watched interface, finds its
 * first IPv4 address, and turns the stream of kernel address notifications
 * into deduplicated change reports.
 *
 * A report is sent for a notification only when it is an address add or
 * delete, it is for the watched interface, it carries an IPv4 `Address`
 * attribute, and that address (as dotted-decimal text) differs from the last
 * one reported.
 */
module AddressWatch {
  import opened Common
  import opened Ipv4Text

  /** An address as it appears in an address attribute. */
  datatype IpAddr = V4(v4: Ipv4) | V6(segments: seq<nat>)

  /** The attributes of an address message; only `Address` is inspected. */
  datatype AddressAttribute =
    | Address(ip: IpAddr)
    | Local(local: IpAddr)
    | Label(name: string)
    | OtherAttribute

  /** An address message: the interface index of its header and its attributes. */
  datatype AddressMessage = AddressMessage(index: nat, attributes: seq<AddressAttribute>)

  /** The route-family payload of a notification. */
  datatype RouteMessage =
    | NewAddress(added: AddressMessage)
    | DelAddress(deleted: AddressMessage)
    | OtherRoute

  /** A notification read from the subscription socket. */
  datatype Notification =
    | InnerMessage(route: RouteMessage)
    | ControlMessage   // done, error, noop or overrun payloads

  datatype EventKind = Add | Del

  /** The event name sent with a report. */
  function EventName(kind: EventKind): (name: string)
    ensures name == "add" <==> kind == Add
    ensures name == "del" <==> kind == Del
  {
    match kind
    case Add => "add"
    case Del => "del"
  }

  /** One address-change report: the new address text and the event. */
  datatype Change = Change(ip: string, kind: EventKind)

  predicate IsV4Address(attr: AddressAttribute) {
    attr.Address? && attr.ip.V4?
  }

  /** The first `Address` attribute holding an IPv4 address, if any. */
  function ExtractIpv4(msg: AddressMessage): (r: Option<Ipv4>)
    ensures r.None? <==> forall i :: 0 <= i < |msg.attributes| ==> !IsV4Address(msg.attributes[i])
    ensures r.Some? ==> exists i :: 0 <= i < |msg.attributes| && msg.attributes[i] == Address(V4(r.value)) &&
                                    forall j :: 0 <= j < i ==> !IsV4Address(msg.attributes[j])
  {
    FirstIpv4(msg.attributes)
  }

  function FirstIpv4(attrs: seq<AddressAttribute>): (r: Option<Ipv4>)
    ensures r.None? <==> forall i :: 0 <= i < |attrs| ==> !IsV4Address(attrs[i])
    ensures r.Some? ==> exists i :: 0 <= i < |attrs| && attrs[i] == Address(V4(r.value)) &&
                                    forall j :: 0 <= j < i ==> !IsV4Address(attrs[j])
  {
    if |attrs| == 0 then None
    else if IsV4Address(attrs[0]) then Some(attrs[0].ip.v4)
    else
      var r := FirstIpv4(attrs[1..]);
      assert r.Some? ==> exists i :: 1 <= i < |attrs| && attrs[i] == Address(V4(r.value)) &&
                                     forall j :: 0 <= j < i ==> !IsV4Address(attrs[j]) by {
        if r.Some? {
          var i :| 0 <= i < |attrs[1..]| && attrs[1..][i] == Address(V4(r.value)) &&
                   forall j :: 0 <= j < i ==> !IsV4Address(attrs[1..][j]);
          assert attrs[i + 1] == Address(V4(r.value));
          assert forall j :: 0 <= j < i + 1 ==> !IsV4Address(attrs[j]) by {
            forall j | 0 <= j < i + 1 ensures !IsV4Address(attrs[j]) {
              if j > 0 { assert attrs[j] == attrs[1..][j - 1]; }
            }
          }
        }
      }
      assert r.None? ==> forall i :: 1 <= i < |attrs| ==> !IsV4Address(attrs[i]) by {
        if r.None? {
          forall i | 1 <= i < |attrs| ensures !IsV4Address(attrs[i]) {
            assert attrs[i] == attrs[1..][i - 1];
          }
        }
      }
      r
  }

  /** An answer of the address dump query: a message, or a read error. */
  datatype DumpItem = Dumped(msg: AddressMessage) | DumpError

  /** A dump answer that carries an IPv4 address. */
  predicate Yields(item: DumpItem) {
    item.Dumped? && ExtractIpv4(item.msg).Some?
  }

  /** A dump answer read without error that carries no IPv4 address. */
  predicate Barren(item: DumpItem) {
    item.Dumped? && ExtractIpv4(item.msg).None?
  }

  /** Position k is the first answer that yields, and every answer before it was read and barren. */
  predicate FirstYield(items: seq<DumpItem>, k: int) {
    0 <= k < |items| && Yields(items[k]) && forall j :: 0 <= j < k ==> Barren(items[j])
  }

  /**
   * The first IPv4 address found while reading the dump of the watched
   * interface's addresses. Reading stops at the first error, which reads as
   * "no address".
   */
  function InitialIpv4(items: seq<DumpItem>): (r: Option<Ipv4>)
    ensures r.Some? <==> exists k :: FirstYield(items, k)
    ensures forall k :: FirstYield(items, k) ==> r == ExtractIpv4(items[k].msg)
  {
    if |items| == 0 || items[0].DumpError? then None
    else if ExtractIpv4(items[0].msg).Some? then assert FirstYield(items, 0); ExtractIpv4(items[0].msg)
    else
      var r := InitialIpv4(items[1..]);
      FirstYieldShift(items);
      r
  }

  /** When the first answer is barren, the first yield of the rest is one place later. */
  lemma FirstYieldShift(items: seq<DumpItem>)
    requires |items| > 0 && Barren(items[0])
    ensures forall k :: FirstYield(items, k) <==> k > 0 && FirstYield(items[1..], k - 1)
    ensures (exists k :: FirstYield(items, k)) <==> (exists k :: FirstYield(items[1..], k))
  {
    forall k | FirstYield(items, k) ensures k > 0 && FirstYield(items[1..], k - 1) {
      assert forall j :: 0 <= j < k - 1 ==> items[1..][j] == items[j + 1];
    }
    forall k | k > 0 && FirstYield(items[1..], k - 1) ensures FirstYield(items, k) {
      assert forall j :: 1 <= j < k ==> items[j] == items[1..][j - 1];
    }
    if exists k :: FirstYield(items[1..], k) {
      var k :| FirstYield(items[1..], k);
      assert FirstYield(items, k + 1);
    }
  }

  /** The first answer of the link lookup by name: absent, an error, or a link with its index. */
  datatype LinkAnswer = NoLink | LinkError(message: string) | Link(linkIndex: nat)

  const InterfaceNotFound: string := "interface not found"

  /** Resolving the watched interface to its index. */
  function ResolveLink(first: LinkAnswer): (r: Result<nat, string>)
    ensures r.Ok? <==> first.Link?
    ensures r.Ok? ==> r.value == first.linkIndex
    ensures first.NoLink? ==> r == Err(InterfaceNotFound)
    ensures first.LinkError? ==> r == Err(first.message)
  {
    match first
    case NoLink => Err(InterfaceNotFound)
    case LinkError(e) => Err(e)
    case Link(index) => Ok(index)
  }

  /**
   * The change a notification stands for, before deduplication: None unless it
   * is an add or delete for the watched interface carrying an IPv4 address.
   */
  function Candidate(linkIndex: nat, n: Notification): (r: Option<Change>)
    ensures r.Some? ==> n.InnerMessage? && (n.route.NewAddress? || n.route.DelAddress?)
    ensures r.Some? && n.route.NewAddress? ==> r.value.kind == Add && n.route.added.index == linkIndex &&
                                                ExtractIpv4(n.route.added).Some? &&
                                                r.value.ip == Dotted(ExtractIpv4(n.route.added).value)
    ensures r.Some? && n.route.DelAddress? ==> r.value.kind == Del && n.route.deleted.index == linkIndex &&
                                                ExtractIpv4(n.route.deleted).Some? &&
                                                r.value.ip == Dotted(ExtractIpv4(n.route.deleted).value)
    ensures r.None? ==> !n.InnerMessage? || n.route.OtherRoute? ||
                        (n.route.NewAddress? && (n.route.added.index != linkIndex || ExtractIpv4(n.route.added).None?)) ||
                        (n.route.DelAddress? && (n.route.deleted.index != linkIndex || ExtractIpv4(n.route.deleted).None?))
  {
    match n
    case ControlMessage => None
    case InnerMessage(route) =>
      match route
      case OtherRoute => None
      case NewAddress(a) => AddressCandidate(linkIndex, a, Add)
      case DelAddress(a) => AddressCandidate(linkIndex, a, Del)
  }

  function AddressCandidate(linkIndex: nat, a: AddressMessage, kind: EventKind): Option<Change> {
    if a.index != linkIndex then None
    else match ExtractIpv4(a)
      case None => None
      case Some(ip) => Some(Change(Dotted(ip), kind))
  }

  /** The candidate changes of a notification stream, in order. */
  function Candidates(linkIndex: nat, ns: seq<Notification>): seq<Change> {
    if |ns| == 0 then []
    else
      var rest := Candidates(linkIndex, ns[..|ns| - 1]);
      match Candidate(linkIndex, ns[|ns| - 1])
      case None => rest
      case Some(c) => rest + [c]
  }

  /** The last address text seen after a run of candidates, starting from `last`. */
  function Cursor(last: Option<string>, cs: seq<Change>): Option<string> {
    if |cs| == 0 then last else Some(cs[|cs| - 1].ip)
  }

  /** The candidates that survive deduplication against the previous address. */
  function Dedup(last: Option<string>, cs: seq<Change>): seq<Change> {
    if |cs| == 0 then []
    else
      var prefix := cs[..|cs| - 1];
      var c := cs[|cs| - 1];
      if Cursor(last, prefix) == Some(c.ip) then Dedup(last, prefix)
      else Dedup(last, prefix) + [c]
  }

  /** The reports a stream of notifications produces, starting from `last`. */
  function Reports(linkIndex: nat, last: Option<string>, ns: seq<Notification>): seq<Change> {
    Dedup(last, Candidates(linkIndex, ns))
  }

  /** The remembered address after a stream of notifications, starting from `last`. */
  function LastAfter(linkIndex: nat, last: Option<string>, ns: seq<Notification>): Option<string> {
    Cursor(last, Candidates(linkIndex, ns))
  }

  const SubscriptionEnded: string := "IP changes subscription ended"

  /** Whether the k-th report failed to reach the server; a missing entry means it did. */
  predicate Failed(delivered: seq<bool>, k: nat) {
    !(k < |delivered| && delivered[k])
  }

  /** How many of the first n reports were not delivered, when `delivered[k]` tells the fate of the k-th. */
  function Undelivered(delivered: seq<bool>, n: nat): (count: nat)
    ensures count == |set k: nat | k < n && Failed(delivered, k)|
    ensures count <= n
  {
    if n == 0 then
      assert (set k: nat | k < n && Failed(delivered, k)) == {};
      0
    else
      var earlier := set k: nat | k < n - 1 && Failed(delivered, k);
      var last := if Failed(delivered, n - 1) then {n - 1} else {};
      assert (set k: nat | k < n && Failed(delivered, k)) == earlier + last;
      assert n - 1 !in earlier;
      Undelivered(delivered, n - 1) + (if Failed(delivered, n - 1) then 1 else 0)
  }

  /** The listener, with the one piece of state it updates: the last reported address. */
  class IpChangeListener {
    var lastIp: Option<string>
    const linkIndex: nat

    /** A listener for a resolved interface index; nothing has been reported yet. */
    constructor (index: nat)
      ensures linkIndex == index && lastIp == None
    {
      linkIndex := index;
      lastIp := None;
    }

    /**
     * Consumes the whole notification stream. `delivered[k]` says whether
     * the k-th report reached the server (a missing entry means it did not);
     * a failed report is only logged, and neither the reports nor the
     * remembered address depend on `delivered`. When the stream ends the
     * loop stops with "IP changes subscription ended".
     */
    method Run(notifications: seq<Notification>, delivered: seq<bool>)
      returns (reports: seq<Change>, logged: nat, err: string)
      modifies this
      ensures reports == Reports(linkIndex, old(lastIp), notifications)
      ensures lastIp == LastAfter(linkIndex, old(lastIp), notifications)
      ensures logged == Undelivered(delivered, |reports|)
      ensures err == SubscriptionEnded
    {
      ghost var start := lastIp;
      reports := [];
      logged := 0;
      var i := 0;
      while i < |notifications|
        invariant 0 <= i <= |notifications|
        invariant reports == Dedup(start, Candidates(linkIndex, notifications[..i]))
        invariant lastIp == Cursor(start, Candidates(linkIndex, notifications[..i]))
        invariant logged == Undelivered(delivered, |reports|)
      {
        var n := notifications[i];
        assert notifications[..i + 1][..i] == notifications[..i];
        assert notifications[..i + 1][i] == n;
        ghost var before := Candidates(linkIndex, notifications[..i]);
        var candidate := Candidate(linkIndex, n);
        if candidate.Some? {
          var change := candidate.value;
          assert Candidates(linkIndex, notifications[..i + 1]) == before + [change];
          assert (before + [change])[..|before|] == before;
          if lastIp != Some(change.ip) {
            lastIp := Some(change.ip);
            var sent := |reports|;
            reports := reports + [change];
            if Failed(delivered, sent) {
              logged := logged + 1;
            }
            assert logged == Undelivered(delivered, sent + 1);
          }
        }
        i := i + 1;
      }
      assert notifications[..i] == notifications;
      err := SubscriptionEnded;
    }
  }

  // ---------------------------------------------------------------------
  // Properties of the deduplicated report stream.

  /** No report repeats the address of the one before it, and the first differs from `last`. */
  lemma {:induction false} NoRepeatedReports(last: Option<string>, cs: seq<Change>)
    ensures var r := Dedup(last, cs);
            (|r| > 0 ==> last != Some(r[0].ip)) &&
            forall i :: 0 <= i < |r| - 1 ==> r[i].ip != r[i + 1].ip
  {
    if |cs| > 0 {
      var prefix := cs[..|cs| - 1];
      NoRepeatedReports(last, prefix);
      CursorIsLastReport(last, prefix);
    }
  }

  /** The cursor is the address of the last report, or the starting value if none was sent. */
  lemma {:induction false} CursorIsLastReport(last: Option<string>, cs: seq<Change>)
    ensures var r := Dedup(last, cs);
            Cursor(last, cs) == if |r| == 0 then last else Some(r[|r| - 1].ip)
  {
    if |cs| > 0 {
      CursorIsLastReport(last, cs[..|cs| - 1]);
    }
  }

  /** Every report is one of the candidates. */
  lemma {:induction false} ReportsAreCandidates(last: Option<string>, cs: seq<Change>)
    ensures forall c :: c in Dedup(last, cs) ==> c in cs
    ensures |Dedup(last, cs)| <= |cs|
  {
    if |cs| > 0 {
      ReportsAreCandidates(last, cs[..|cs| - 1]);
    }
  }

  /** A run of candidates that all carry one address yields at most one report. */
  lemma {:induction false} SameAddressReportedOnce(last: Option<string>, cs: seq<Change>, ip: string)
    requires forall i :: 0 <= i < |cs| ==> cs[i].ip == ip
    ensures |Dedup(last, cs)| <= 1
    ensures |Dedup(last, cs)| == 0 <==> |cs| == 0 || last == Some(ip)
  {
    if |cs| > 0 {
      SameAddressReportedOnce(last, cs[..|cs| - 1], ip);
    }
  }

  /** With nothing reported yet, the first candidate is always reported. */
  lemma {:induction false} FirstCandidateReported(cs: seq<Change>)
    requires |cs| > 0
    ensures |Dedup(None, cs)| > 0 && Dedup(None, cs)[0] == cs[0]
  {
    if |cs| > 1 {
      FirstCandidateReported(cs[..|cs| - 1]);
      assert cs[..|cs| - 1][0] == cs[0];
    }
  }

  /** An add followed by a delete of the same address reports only the add. */
  lemma AddThenDelete(last: Option<string>, ip: string)
    requires last != Some(ip)
    ensures Dedup(last, [Change(ip, Add), Change(ip, Del)]) == [Change(ip, Add)]
  {
    var cs := [Change(ip, Add), Change(ip, Del)];
    assert cs[..1] == [Change(ip, Add)];
    assert [Change(ip, Add)][..0] == [];
    assert Dedup(last, [Change(ip, Add)]) == [Change(ip, Add)];
    assert Cursor(last, cs[..1]) == Some(ip);
  }

  /** A notification that yields no candidate changes neither the reports nor the cursor. */
  lemma IgnoredNotification(linkIndex: nat, last: Option<string>, ns: seq<Notification>, n: Notification)
    requires Candidate(linkIndex, n).None?
    ensures Reports(linkIndex, last, ns + [n]) == Reports(linkIndex, last, ns)
    ensures LastAfter(linkIndex, last, ns + [n]) == LastAfter(linkIndex, last, ns)
  {
    assert (ns + [n])[..|ns|] == ns;
  }

  /**
   * A candidate whose address equals the remembered one is suppressed, whatever
   * its kind; any other candidate is reported and becomes the remembered one.
   */
  lemma CandidateStep(linkIndex: nat, last: Option<string>, ns: seq<Notification>, n: Notification)
    requires Candidate(linkIndex, n).Some?
    ensures var c := Candidate(linkIndex, n).value;
            LastAfter(linkIndex, last, ns + [n]) == Some(c.ip) &&
            Reports(linkIndex, last, ns + [n]) ==
              if LastAfter(linkIndex, last, ns) == Some(c.ip) then Reports(linkIndex, last, ns)
              else Reports(linkIndex, last, ns) + [c]
  {
    var c := Candidate(linkIndex, n).value;
    assert (ns + [n])[..|ns|] == ns;
    var before := Candidates(linkIndex, ns);
    assert Candidates(linkIndex, ns + [n]) == before + [c];
    assert (before + [c])[..|before|] == before;
  }
}
