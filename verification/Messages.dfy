/** Names and payloads of the messages that routers exchange: what is put into one is what is read out of it. */
module Messages {
  import opened Common
  import opened MessageText

  /** What parsing a name comes to: an exception of the library, or fields that are never set. */
  datatype Parsed<T> = Value(v: T) | Throws | Unset

  const TYPE_EXACT: int := 0
  const TYPE_CLOSEST: int := 1
  const TYPE_MISS: int := 2

  predicate StartsWith(s: string, p: string) {
    |s| >= |p| && s[..|p|] == p
  }

  /** The place of the first such character, or the length of the string. */
  function Find(s: string, c: char): (k: nat)
    ensures k <= |s| && (forall i :: 0 <= i < k ==> s[i] != c) && (k < |s| ==> s[k] == c)
  {
    if s == "" || s[0] == c then 0 else 1 + Find(s[1..], c)
  }

  /** A name is put together as text and then split. */
  function NameOf(prefix: seq<string>, op: string, a: string, b: string, last: string): seq<string> {
    ParseName(ToUri(prefix) + "/" + op + "/" + a + "/" + b + "/" + last)
  }

  lemma NameParts(prefix: seq<string>, op: string, a: string, b: string, last: string)
    requires (forall i :: 0 <= i < |prefix| ==> Component(prefix[i])) && Component(op) && Component(a) && Component(b) && Component(last)
    ensures NameOf(prefix, op, a, b, last) == prefix + [op, a, b, last]
  {
    hide ParseName, Component;
    UriMore(prefix, op);
    UriMore(prefix + [op], a);
    UriMore(prefix + [op] + [a], b);
    UriMore(prefix + [op] + [a] + [b], last);
    var name := prefix + [op] + [a] + [b] + [last];
    ParseToUri(name);
    assert name == prefix + [op, a, b, last];
  }

  lemma NameAt(prefix: seq<string>, op: string, a: string, b: string, last: string)
    requires (forall i :: 0 <= i < |prefix| ==> Component(prefix[i])) && Component(op) && Component(a) && Component(b) && Component(last)
    ensures var name := NameOf(prefix, op, a, b, last); var n := |prefix|;
            |name| == n + 4 && name[n + 1] == a && name[n + 2] == b && name[n + 3] == last
  {
    hide NameOf, Component;
    NameParts(prefix, op, a, b, last);
  }

  lemma UriMore(name: seq<string>, c: string)
    ensures ToUri(name + [c]) == ToUri(name) + "/" + c
  {
  }

  lemma PrintedComponent(n: nat)
    ensures Component(Print(n))
  {
  }

  // ------------------------------------------------------------------------------ RetranS

  datatype RetranSUri = RetranSUri(prefix: string, dataId: int, sourceNodeId: int, kind: int, requestedDataId: int, driftingDelta: int)

  function ConstructRetranS(prefix: seq<string>, lostDataID: nat, nodeId: nat, kind: int, closestDataID: nat, time: nat): Option<seq<string>> {
    if kind == TYPE_EXACT then Some(NameOf(prefix, "RetranS", Print(lostDataID), Print(nodeId), "ExactD" + Print(time)))
    else if kind == TYPE_CLOSEST then
      Some(NameOf(prefix, "RetranS", Print(lostDataID), Print(nodeId), "Closest-" + Print(closestDataID) + "D" + Print(time)))
    else if kind == TYPE_MISS then Some(NameOf(prefix, "RetranS", Print(lostDataID), Print(nodeId), "Miss"))
    else None
  }

  function ParseRetranSUri(prefix: seq<string>, name: seq<string>): Parsed<RetranSUri> {
    var n := |prefix|;
    if |name| <= n + 3 || Stoull(name[n + 1]).None? || Stoll(name[n + 2]).None? then Throws
    else
      ParseRetranSKind(ToUri(prefix), Uint32(Stoull(name[n + 1]).value), Uint32(Stoll(name[n + 2]).value), name[n + 3])
  }

  function ParseRetranSKind(prefix: string, dataId: int, sourceNodeId: int, kind: string): Parsed<RetranSUri> {
    if StartsWith(kind, "Exact") then
      if |kind| > 5 && kind[5] == 'D' then
        match Stoll(kind[6..])
        case None => Throws
        case Some(delta) => Value(RetranSUri(prefix, dataId, sourceNodeId, TYPE_EXACT, dataId, Uint64(delta)))
      else Value(RetranSUri(prefix, dataId, sourceNodeId, TYPE_EXACT, dataId, 0))
    else if StartsWith(kind, "Closest-") then
      var pos := Find(kind, 'D');
      if pos == |kind| then
        match Stoll(kind[8..])
        case None => Throws
        case Some(id) => Value(RetranSUri(prefix, dataId, sourceNodeId, TYPE_CLOSEST, Uint32(id), 0))
      else
        NoDBefore(kind);
        match Stoll(kind[8..pos])
        case None => Throws
        case Some(id) =>
          match Stoll(kind[pos + 1..])
          case None => Throws
          case Some(delta) => Value(RetranSUri(prefix, dataId, sourceNodeId, TYPE_CLOSEST, Uint32(id), Uint64(delta)))
    else if StartsWith(kind, "Miss") then Value(RetranSUri(prefix, dataId, sourceNodeId, TYPE_MISS, dataId, 0))
    else Unset
  }

  function Uint64(x: int): int { x % 0x1_0000_0000_0000_0000 }

  lemma NoDBefore(kind: string)
    requires StartsWith(kind, "Closest-")
    ensures Find(kind, 'D') >= 8
  {
    var p := "Closest-";
    assert forall i :: 0 <= i < 8 ==> kind[i] == kind[..8][i] == p[i] && p[i] != 'D';
  }

  lemma {:induction false} FindFirst(a: string, c: char, rest: string)
    requires (forall i :: 0 <= i < |a| ==> a[i] != c) && rest != "" && rest[0] == c
    ensures Find(a + rest, c) == |a|
  {
    if a == "" {
      assert a + rest == rest;
    } else {
      assert (a + rest)[1..] == a[1..] + rest;
      FindFirst(a[1..], c, rest);
    }
  }

  lemma ExactKind(prefix: string, dataId: int, node: int, time: nat)
    ensures ParseRetranSKind(prefix, dataId, node, "ExactD" + Print(time)) ==
            if time < 0x8000_0000_0000_0000 then Value(RetranSUri(prefix, dataId, node, TYPE_EXACT, dataId, time)) else Throws
  {
    hide Stoll, Print;
    var kind := "ExactD" + Print(time);
    assert kind[..5] == "Exact" && kind[5] == 'D' && kind[6..] == Print(time);
    StollAlone(time);
  }

  ghost predicate Without(s: string, c: char) {
    forall i :: 0 <= i < |s| ==> s[i] != c
  }

  lemma WithoutJoined(p: string, a: string, c: char)
    requires Without(p, c) && Without(a, c)
    ensures Without(p + a, c)
  {
  }

  /** The parts of a text that is split at the first `c`. */
  lemma SplitAt(p: string, a: string, c: char, b: string)
    requires Without(p, c) && Without(a, c)
    ensures var s := p + a + [c] + b; var k := |p| + |a|;
            Find(s, c) == k < |s| && s[..|p|] == p && s[|p|..k] == a && s[k + 1..] == b
  {
    var s := p + a + [c] + b;
    WithoutJoined(p, a, c);
    FindFirst(p + a, c, [c] + b);
    assert s == p + a + ([c] + b);
  }

  lemma DigitsWithout(n: nat)
    ensures Without(Print(n), 'D') && Without(Print(n), '-') && Without("Closest-", 'D')
  {
  }

  lemma ClosestKind(prefix: string, dataId: int, node: int, closest: nat, time: nat)
    requires closest < 0x1_0000_0000
    ensures ParseRetranSKind(prefix, dataId, node, "Closest-" + Print(closest) + "D" + Print(time)) ==
            if time < 0x8000_0000_0000_0000 then Value(RetranSUri(prefix, dataId, node, TYPE_CLOSEST, closest, time)) else Throws
  {
    hide *;
    DigitsWithout(closest);
    var p: string := "Closest-";
    SplitAt(p, Print(closest), 'D', Print(time));
    StollAlone(closest);
    StollAlone(time);
    var kind := p + Print(closest) + ['D'] + Print(time);
    NotExact(kind);
    ClosestRead(prefix, dataId, node, kind, closest, |p| + |Print(closest)|, Stoll(Print(time)));
    DriftKept(time);
  }

  lemma DriftKept(time: nat)
    ensures time < 0x8000_0000_0000_0000 ==> Uint64(time) == time
  {
  }

  lemma ClosestRead(prefix: string, dataId: int, node: int, kind: string, closest: nat, k: nat, delta: Option<int>)
    requires |kind| >= 8 && StartsWith(kind, "Closest-") && !StartsWith(kind, "Exact") && closest < 0x1_0000_0000
    requires Find(kind, 'D') == k && 8 <= k < |kind| && Stoll(kind[8..k]) == Some(closest) && Stoll(kind[k + 1..]) == delta
    ensures ParseRetranSKind(prefix, dataId, node, kind) ==
            if delta.None? then Throws else Value(RetranSUri(prefix, dataId, node, TYPE_CLOSEST, closest, Uint64(delta.value)))
  {
    hide Stoll, Find, StartsWith;
  }

  lemma NotExact(kind: string)
    requires |kind| >= 8 && kind[..8] == "Closest-"
    ensures StartsWith(kind, "Closest-") && !StartsWith(kind, "Exact") && !StartsWith(kind, "Exact-")
  {
    assert kind[0] == kind[..8][0] == 'C';
    assert kind[..5][0] == 'C' && kind[..6][0] == 'C';
    assert "Exact"[0] == 'E' && "Exact-"[0] == 'E';
  }

  lemma MissKind(prefix: string, dataId: int, node: int)
    ensures ParseRetranSKind(prefix, dataId, node, "Miss") == Value(RetranSUri(prefix, dataId, node, TYPE_MISS, dataId, 0))
  {
  }

  lemma {:induction false} FindNone(a: string, c: char)
    requires forall i :: 0 <= i < |a| ==> a[i] != c
    ensures Find(a, c) == |a|
  {
    if a == "" {
    } else {
      FindNone(a[1..], c);
    }
  }

  /** Names without a drift are read with drift 0. */
  lemma WithoutDrift(prefix: string, dataId: int, node: int, closest: nat)
    requires closest < 0x1_0000_0000
    ensures ParseRetranSKind(prefix, dataId, node, "Exact") == Value(RetranSUri(prefix, dataId, node, TYPE_EXACT, dataId, 0))
    ensures ParseRetranSKind(prefix, dataId, node, "Closest-" + Print(closest)) == Value(RetranSUri(prefix, dataId, node, TYPE_CLOSEST, closest, 0))
  {
    ExactAlone(prefix, dataId, node);
    hide *;
    var p: string := "Closest-";
    var kind := p + Print(closest);
    DigitsWithout(closest);
    StollAlone(closest);
    NoD(p, Print(closest));
    FindNone(kind, 'D');
    assert kind[8..] == Print(closest) && kind[..8] == p;
    NotExact(kind);
    ClosestAlone(prefix, dataId, node, kind, closest);
  }

  lemma ExactAlone(prefix: string, dataId: int, node: int)
    ensures ParseRetranSKind(prefix, dataId, node, "Exact") == Value(RetranSUri(prefix, dataId, node, TYPE_EXACT, dataId, 0))
  {
  }

  lemma NoD(p: string, digits: string)
    requires p == "Closest-" && forall i :: 0 <= i < |digits| ==> digits[i] != 'D'
    ensures forall i :: 0 <= i < |p + digits| ==> (p + digits)[i] != 'D'
  {
  }

  lemma ClosestAlone(prefix: string, dataId: int, node: int, kind: string, closest: nat)
    requires |kind| >= 8 && StartsWith(kind, "Closest-") && !StartsWith(kind, "Exact") && closest < 0x1_0000_0000
    requires Find(kind, 'D') == |kind| && Stoll(kind[8..]) == Some(closest)
    ensures ParseRetranSKind(prefix, dataId, node, kind) == Value(RetranSUri(prefix, dataId, node, TYPE_CLOSEST, closest, 0))
  {
    hide Stoll, Find, StartsWith;
  }

  lemma KindComponents(closest: nat, time: nat)
    ensures Component("ExactD" + Print(time)) && Component("Closest-" + Print(closest) + "D" + Print(time)) && Component("Miss")
    ensures Component("Exact-" + Print(time)) && Component("Closest-" + Print(closest) + "-" + Print(time))
  {
  }

  /**
   * Parsing undoes printing for every RetranS name: exactly if the drift, which is printed unsigned and read
   * signed, is below 2^63; otherwise parsing throws.  An exact answer is for the id it carries.
   */
  lemma RetranSRoundTrip(prefix: seq<string>, lost: nat, node: nat, kind: int, closest: nat, time: nat)
    requires prefix != [] && forall i :: 0 <= i < |prefix| ==> Component(prefix[i])
    requires lost < 0x1_0000_0000 && node < 0x1_0000_0000 && closest < 0x1_0000_0000 && time < 0x1_0000_0000_0000_0000
    requires kind == TYPE_EXACT || kind == TYPE_CLOSEST || kind == TYPE_MISS
    ensures ConstructRetranS(prefix, lost, node, kind, closest, time).Some?
    ensures ParseRetranSUri(prefix, ConstructRetranS(prefix, lost, node, kind, closest, time).value) ==
            if kind == TYPE_MISS then Value(RetranSUri(ToUri(prefix), lost, node, kind, lost, 0))
            else if time >= 0x8000_0000_0000_0000 then Throws
            else Value(RetranSUri(ToUri(prefix), lost, node, kind, if kind == TYPE_EXACT then lost else closest, time))
  {
    hide Component, Print, ParseRetranSUri, NameOf, ToUri, ParseRetranSKind;
    KindComponents(closest, time);
    ParseAtS(prefix, lost, node, "ExactD" + Print(time));
    ParseAtS(prefix, lost, node, "Closest-" + Print(closest) + "D" + Print(time));
    ParseAtS(prefix, lost, node, "Miss");
    ExactKind(ToUri(prefix), lost, node, time);
    ClosestKind(ToUri(prefix), lost, node, closest, time);
    MissKind(ToUri(prefix), lost, node);
  }

  /** A drift too large to be read back. */
  lemma DriftThrows()
    ensures var name := ConstructRetranS(["pmu"], 7, 3, TYPE_EXACT, 7, 0x8000_0000_0000_0000);
            name.Some? && ParseRetranSUri(["pmu"], name.value) == Throws
  {
    hide ConstructRetranS, ParseRetranSUri;
    assert Component("pmu");
    RetranSRoundTrip(["pmu"], 7, 3, TYPE_EXACT, 7, 0x8000_0000_0000_0000);
  }

  lemma ParseAtS(prefix: seq<string>, lost: nat, node: nat, kind: string)
    requires (forall i :: 0 <= i < |prefix| ==> Component(prefix[i])) && Component(kind) && lost < 0x1_0000_0000 && node < 0x1_0000_0000
    ensures ParseRetranSUri(prefix, NameOf(prefix, "RetranS", Print(lost), Print(node), kind)) == ParseRetranSKind(ToUri(prefix), lost, node, kind)
  {
    hide *;
    PrintedComponent(lost);
    PrintedComponent(node);
    OpComponents();
    NameAt(prefix, "RetranS", Print(lost), Print(node), kind);
    StollAlone(lost);
    StollAlone(node);
    ReadS(prefix, NameOf(prefix, "RetranS", Print(lost), Print(node), kind), lost, node);
  }

  lemma ReadS(prefix: seq<string>, name: seq<string>, lost: nat, node: nat)
    requires lost < 0x1_0000_0000 && node < 0x1_0000_0000 && |name| == |prefix| + 4
    requires Stoull(name[|prefix| + 1]) == Some(lost) && Stoll(name[|prefix| + 2]) == Some(node)
    ensures ParseRetranSUri(prefix, name) == ParseRetranSKind(ToUri(prefix), lost, node, name[|prefix| + 3])
  {
    hide Stoll, Stoull, ParseRetranSKind;
  }

  lemma OpComponents()
    ensures Component("RetranS") && Component("RetranM") && Component("LSA")
  {
  }

  // ------------------------------------------------------------------------------ RetranM

  datatype RetranMUri = RetranMUri(prefix: string, bri: int, sourceNodeId: int, isExact: bool, dataId: int, requestedDataId: int)

  function ConstructRetranM(prefix: seq<string>, bri: nat, nodeId: nat, isExact: bool, dataId: nat, requestedDataId: nat): seq<string> {
    if isExact then NameOf(prefix, "RetranM", Print(bri), Print(nodeId), "Exact-" + Print(dataId))
    else NameOf(prefix, "RetranM", Print(bri), Print(nodeId), "Closest-" + Print(dataId) + "-" + Print(requestedDataId))
  }

  function ParseRetranMUri(prefix: seq<string>, name: seq<string>): Parsed<RetranMUri> {
    var n := |prefix|;
    if |name| <= n + 3 || Stoull(name[n + 1]).None? || Stoll(name[n + 2]).None? then Throws
    else ParseRetranMKind(ToUri(prefix), Stoull(name[n + 1]).value, Uint32(Stoll(name[n + 2]).value), name[n + 3])
  }

  /** Where there is no second dash, both ids are read from the whole rest. */
  function ParseRetranMKind(prefix: string, bri: int, sourceNodeId: int, kind: string): Parsed<RetranMUri> {
    if StartsWith(kind, "Exact-") then
      match Stoll(kind[6..])
      case None => Throws
      case Some(id) => Value(RetranMUri(prefix, bri, sourceNodeId, true, Uint32(id), Uint32(id)))
    else if StartsWith(kind, "Closest-") then
      var a := kind[8..];
      var pos := Find(a, '-');
      match Stoll(a[..pos])
      case None => Throws
      case Some(id) =>
        match Stoll(if pos == |a| then a else a[pos + 1..])
        case None => Throws
        case Some(requested) => Value(RetranMUri(prefix, bri, sourceNodeId, false, Uint32(id), Uint32(requested)))
    else Unset
  }

  lemma ExactMKind(prefix: string, bri: int, node: int, dataId: nat)
    requires dataId < 0x1_0000_0000
    ensures ParseRetranMKind(prefix, bri, node, "Exact-" + Print(dataId)) == Value(RetranMUri(prefix, bri, node, true, dataId, dataId))
  {
    hide Stoll, Print;
    var kind := "Exact-" + Print(dataId);
    assert kind[..6] == "Exact-" && kind[6..] == Print(dataId);
    StollAlone(dataId);
  }

  lemma ClosestMKind(prefix: string, bri: int, node: int, dataId: nat, requested: nat)
    requires dataId < 0x1_0000_0000 && requested < 0x1_0000_0000
    ensures ParseRetranMKind(prefix, bri, node, "Closest-" + Print(dataId) + "-" + Print(requested)) ==
            Value(RetranMUri(prefix, bri, node, false, dataId, requested))
  {
    hide *;
    var p: string := "Closest-";
    var a := Print(dataId) + "-" + Print(requested);
    SplitHere(dataId, Print(requested));
    Dropped(p, a);
    Regrouped(p, Print(dataId), "-", Print(requested));
    ClosestMParsed(prefix, bri, node, dataId, requested, p + a);
  }

  lemma ClosestMParsed(prefix: string, bri: int, node: int, dataId: nat, requested: nat, kind: string)
    requires dataId < 0x1_0000_0000 && requested < 0x1_0000_0000 && |kind| >= 8 && kind[..8] == "Closest-"
    requires var a := kind[8..]; var k := |Print(dataId)|; Find(a, '-') == k < |a| && a[..k] == Print(dataId) && a[k + 1..] == Print(requested)
    ensures ParseRetranMKind(prefix, bri, node, kind) == Value(RetranMUri(prefix, bri, node, false, dataId, requested))
  {
    hide *;
    NotExact(kind);
    StollAlone(dataId);
    StollAlone(requested);
    ClosestMRead(prefix, bri, node, kind, dataId, requested, |Print(dataId)|);
  }

  lemma ClosestMRead(prefix: string, bri: int, node: int, kind: string, dataId: nat, requested: nat, k: nat)
    requires dataId < 0x1_0000_0000 && requested < 0x1_0000_0000 && |kind| >= 8 && StartsWith(kind, "Closest-") && !StartsWith(kind, "Exact-")
    requires Find(kind[8..], '-') == k < |kind[8..]| && Stoll(kind[8..][..k]) == Some(dataId) && Stoll(kind[8..][k + 1..]) == Some(requested)
    ensures ParseRetranMKind(prefix, bri, node, kind) == Value(RetranMUri(prefix, bri, node, false, dataId, requested))
  {
    hide Stoll, Find, StartsWith;
  }

  lemma Dropped(p: string, a: string)
    ensures (p + a)[..|p|] == p && (p + a)[|p|..] == a
  {
  }

  lemma Regrouped(p: string, a: string, b: string, c: string)
    ensures p + a + b + c == p + (a + b + c)
  {
  }

  /** A printed number and what follows the first dash after it. */
  lemma SplitHere(n: nat, rest: string)
    ensures var s := Print(n) + "-" + rest; Find(s, '-') == |Print(n)| < |s| && s[..|Print(n)|] == Print(n) && s[|Print(n)| + 1..] == rest
  {
    DigitsWithout(n);
    hide Find, Print;
    SplitAt("", Print(n), '-', rest);
    assert "" + Print(n) == Print(n);
  }

  /** Parsing undoes printing for every RetranM name; an exact answer is for the id it carries. */
  lemma RetranMRoundTrip(prefix: seq<string>, bri: nat, node: nat, isExact: bool, dataId: nat, requested: nat)
    requires prefix != [] && forall i :: 0 <= i < |prefix| ==> Component(prefix[i])
    requires bri < 0x1_0000_0000_0000_0000 && node < 0x1_0000_0000 && dataId < 0x1_0000_0000 && requested < 0x1_0000_0000
    ensures ParseRetranMUri(prefix, ConstructRetranM(prefix, bri, node, isExact, dataId, requested)) ==
            Value(RetranMUri(ToUri(prefix), bri, node, isExact, dataId, if isExact then dataId else requested))
  {
    hide Component, Print, ParseRetranMUri, NameOf, ToUri, ParseRetranMKind;
    KindComponents(dataId, dataId);
    KindComponents(dataId, requested);
    ParseAtM(prefix, bri, node, "Exact-" + Print(dataId));
    ParseAtM(prefix, bri, node, "Closest-" + Print(dataId) + "-" + Print(requested));
    ExactMKind(ToUri(prefix), bri, node, dataId);
    ClosestMKind(ToUri(prefix), bri, node, dataId, requested);
  }

  lemma ParseAtM(prefix: seq<string>, bri: nat, node: nat, kind: string)
    requires (forall i :: 0 <= i < |prefix| ==> Component(prefix[i])) && Component(kind) && bri < 0x1_0000_0000_0000_0000 && node < 0x1_0000_0000
    ensures ParseRetranMUri(prefix, NameOf(prefix, "RetranM", Print(bri), Print(node), kind)) == ParseRetranMKind(ToUri(prefix), bri, node, kind)
  {
    hide *;
    PrintedComponent(bri);
    PrintedComponent(node);
    OpComponents();
    NameAt(prefix, "RetranM", Print(bri), Print(node), kind);
    StollAlone(bri);
    StollAlone(node);
    ReadM(prefix, NameOf(prefix, "RetranM", Print(bri), Print(node), kind), bri, node);
  }

  lemma ReadM(prefix: seq<string>, name: seq<string>, bri: nat, node: nat)
    requires node < 0x1_0000_0000 && |name| == |prefix| + 4
    requires Stoull(name[|prefix| + 1]) == Some(bri) && Stoll(name[|prefix| + 2]) == Some(node)
    ensures ParseRetranMUri(prefix, name) == ParseRetranMKind(ToUri(prefix), bri, node, name[|prefix| + 3])
  {
    hide Stoll, Stoull, ParseRetranMKind;
  }

  lemma DigitsPrinted()
    ensures Print(1) == "1" && Print(2) == "2" && Print(3) == "3" && Print(4) == "4" && Print(5) == "5" && Print(6) == "6" && Print(7) == "7" && Print(8) == "8"
  {
  }

  lemma Plain(prefix: string, op: string, a: string, b: string, last: string)
    requires Component(prefix) && Component(op) && Component(a) && Component(b) && Component(last)
    ensures NameOf([prefix], op, a, b, last) == [prefix, op, a, b, last]
  {
    hide NameOf, Component;
    NameParts([prefix], op, a, b, last);
  }

  /** What names of answers to single requests look like. */
  lemma RetranSWritten()
    ensures ConstructRetranS(["pmu"], 5, 3, TYPE_EXACT, 0, 4) == Some(["pmu", "RetranS", "5", "3", "ExactD4"])
    ensures ConstructRetranS(["pmu"], 5, 3, TYPE_CLOSEST, 7, 4) == Some(["pmu", "RetranS", "5", "3", "Closest-7D4"])
    ensures ConstructRetranS(["pmu"], 5, 3, TYPE_MISS, 0, 4) == Some(["pmu", "RetranS", "5", "3", "Miss"])
  {
    hide NameOf, Print;
    DigitsPrinted();
    assert "Exact" + "D" == "ExactD" && "ExactD" + "4" == "ExactD4" && "Closest-" + "7" + "D" + "4" == "Closest-7D4";
    Plain("pmu", "RetranS", "5", "3", "ExactD4");
    Plain("pmu", "RetranS", "5", "3", "Closest-7D4");
    Plain("pmu", "RetranS", "5", "3", "Miss");
  }

  /** And those of answers to requests of a batch. */
  lemma RetranMWritten()
    ensures ConstructRetranM(["pmu"], 2, 3, true, 5, 5) == ["pmu", "RetranM", "2", "3", "Exact-5"]
    ensures ConstructRetranM(["pmu"], 2, 3, false, 5, 6) == ["pmu", "RetranM", "2", "3", "Closest-5-6"]
  {
    hide NameOf, Print;
    DigitsPrinted();
    assert "Exact-" + "5" == "Exact-5" && "Closest-" + "5" + "-" + "6" == "Closest-5-6";
    Plain("pmu", "RetranM", "2", "3", "Exact-5");
    Plain("pmu", "RetranM", "2", "3", "Closest-5-6");
  }

  /** And those of advertisements. */
  lemma LsaWritten()
    ensures ConstructLsa(["pmu"], 8, 3, 1, "active") == ["pmu", "LSA", "8", "3", "1-active"]
  {
    hide NameOf, Print;
    DigitsPrinted();
    assert "1" + "-" + "active" == "1-active";
    Plain("pmu", "LSA", "8", "3", "1-active");
  }

  // ---------------------------------------------------------------------------------- LSA

  datatype LsaUri = LsaUri(lsaId: int, sourceNodeId: int, updateSeqNo: int, kind: string)

  function ConstructLsa(prefix: seq<string>, lsaId: nat, sourceNodeId: nat, updateSeqNo: nat, kind: string): seq<string> {
    NameOf(prefix, "LSA", Print(lsaId), Print(sourceNodeId), Print(updateSeqNo) + "-" + kind)
  }

  function ParseLsaUri(prefix: seq<string>, name: seq<string>): Parsed<LsaUri> {
    var n := |prefix|;
    if |name| <= n + 3 || Stoll(name[n + 1]).None? || Stoll(name[n + 2]).None? then Throws
    else
      var seqNoAndType := name[n + 3];
      var i := Find(seqNoAndType, '-');
      match Stoll(seqNoAndType[..i])
      case None => Throws
      case Some(no) => Value(LsaUri(Uint32(Stoll(name[n + 1]).value), Uint32(Stoll(name[n + 2]).value), Uint32(no),
                                    if i == |seqNoAndType| then seqNoAndType else seqNoAndType[i + 1..]))
  }

  /** Parsing undoes printing for every LSA name, dashes in the type included. */
  lemma LsaRoundTrip(prefix: seq<string>, lsaId: nat, source: nat, seqNo: nat, kind: string)
    requires prefix != [] && (forall i :: 0 <= i < |prefix| ==> Component(prefix[i])) && NoSlash(kind)
    requires lsaId < 0x1_0000_0000 && source < 0x1_0000_0000 && seqNo < 0x1_0000_0000
    ensures ParseLsaUri(prefix, ConstructLsa(prefix, lsaId, source, seqNo, kind)) == Value(LsaUri(lsaId, source, seqNo, kind))
  {
    hide *;
    SeqNoComponent(seqNo, kind);
    SplitHere(seqNo, kind);
    LsaParsed(prefix, lsaId, source, seqNo, kind, Print(seqNo) + "-" + kind);
    LsaIs(prefix, lsaId, source, seqNo, kind);
  }

  lemma LsaIs(prefix: seq<string>, lsaId: nat, source: nat, seqNo: nat, kind: string)
    ensures ConstructLsa(prefix, lsaId, source, seqNo, kind) == NameOf(prefix, "LSA", Print(lsaId), Print(source), Print(seqNo) + "-" + kind)
  {
  }

  lemma LsaParsed(prefix: seq<string>, lsaId: nat, source: nat, seqNo: nat, kind: string, last: string)
    requires (forall i :: 0 <= i < |prefix| ==> Component(prefix[i])) && Component(last)
    requires lsaId < 0x1_0000_0000 && source < 0x1_0000_0000 && seqNo < 0x1_0000_0000
    requires Find(last, '-') == |Print(seqNo)| < |last| && last[..|Print(seqNo)|] == Print(seqNo) && last[|Print(seqNo)| + 1..] == kind
    ensures ParseLsaUri(prefix, NameOf(prefix, "LSA", Print(lsaId), Print(source), last)) == Value(LsaUri(lsaId, source, seqNo, kind))
  {
    hide *;
    PrintedComponent(lsaId);
    PrintedComponent(source);
    OpComponents();
    var name := NameOf(prefix, "LSA", Print(lsaId), Print(source), last);
    NameAt(prefix, "LSA", Print(lsaId), Print(source), last);
    StollAlone(lsaId);
    StollAlone(source);
    StollAlone(seqNo);
    LsaRead(prefix, name, lsaId, source, seqNo, last, |Print(seqNo)|);
  }

  lemma LsaRead(prefix: seq<string>, name: seq<string>, lsaId: nat, source: nat, seqNo: nat, last: string, i: nat)
    requires lsaId < 0x1_0000_0000 && source < 0x1_0000_0000 && seqNo < 0x1_0000_0000
    requires |name| == |prefix| + 4 && name[|prefix| + 3] == last && Find(last, '-') == i < |last|
    requires Stoll(name[|prefix| + 1]) == Some(lsaId) && Stoll(name[|prefix| + 2]) == Some(source) && Stoll(last[..i]) == Some(seqNo)
    ensures ParseLsaUri(prefix, name) == Value(LsaUri(lsaId, source, seqNo, last[i + 1..]))
  {
    hide Stoll, Find;
  }

  lemma SeqNoComponent(seqNo: nat, kind: string)
    requires NoSlash(kind)
    ensures Component(Print(seqNo) + "-" + kind)
  {
  }
}
