/** Tests of the links of a router by echoes, of which several may run at once. */
module LinkTests {
  import opened Common
  import opened EchoTables

  /** `remoteNode` is -1 for a face that leads to no router. */
  datatype FaceEntry = FaceEntry(faceId: int, remoteNode: int)

  /** What an advertisement says of a neighbour. */
  datatype NeighborStatus = NeighborStatus(node: int, status: FaceStatus)

  class LinkMeasurementState {
    const faceEntries: seq<FaceEntry>
    var faceStatus: seq<FaceStatus>
    var nextLinkTestID: int
    var echoIDsInLinkTest: map<int, seq<int>>
    var echoMsgStateMap: map<int, EchoState>
    var prevLsa: Option<seq<NeighborStatus>>
    var lsaUpdateSeqNo: int
    ghost var history: seq<TestEvent>

    /** The tables are those that the history leads to, whatever ids were drawn. */
    ghost predicate Valid()
      reads this
    {
      && |faceStatus| == |faceEntries| && Tables(echoIDsInLinkTest, echoMsgStateMap) == TablesOf(history)
      && forall t :: t in echoIDsInLinkTest ==> t < nextLinkTestID
    }

    constructor (faceEntries: seq<FaceEntry>)
      ensures Valid() && history == [] && this.faceEntries == faceEntries && prevLsa == None && lsaUpdateSeqNo == 0
      ensures nextLinkTestID == 0 && faceStatus == seq(|faceEntries|, _ => NormalFace)
      ensures UpToDate(prevLsa, faceEntries, faceStatus)
    {
      this.faceEntries := faceEntries;
      faceStatus := seq(|faceEntries|, _ => NormalFace);
      nextLinkTestID := 0;
      echoIDsInLinkTest, echoMsgStateMap, history := map[], map[], [];
      prevLsa, lsaUpdateSeqNo := None, 0;
    }

    method StartLinkTest() returns (linkTestID: int)
      requires Valid()
      modifies this`nextLinkTestID, this`echoIDsInLinkTest, this`history
      ensures Valid() && linkTestID == old(nextLinkTestID) && linkTestID !in old(echoIDsInLinkTest)
      ensures nextLinkTestID == linkTestID + 1 && history == old(history) + [Begun(linkTestID)]
      ensures echoIDsInLinkTest == old(echoIDsInLinkTest)[linkTestID := []]
    {
      hide TablesOf;
      linkTestID := nextLinkTestID;
      OneMore(history, Begun(linkTestID));
      nextLinkTestID := nextLinkTestID + 1;
      echoIDsInLinkTest := echoIDsInLinkTest[linkTestID := []];
      history := history + [Begun(linkTestID)];
    }

    /** Records an echo sent on one face, under any id. */
    method SendEcho(linkTestID: int, face: nat, echoId: int)
      requires Valid() && linkTestID in echoIDsInLinkTest
      modifies this`echoIDsInLinkTest, this`echoMsgStateMap, this`history
      ensures Valid() && history == old(history) + [Sent(linkTestID, echoId, face)]
      ensures echoIDsInLinkTest.Keys == old(echoIDsInLinkTest).Keys
    {
      hide TablesOf;
      OneMore(history, Sent(linkTestID, echoId, face));
      echoMsgStateMap := echoMsgStateMap[echoId := EchoState(face, false)];
      echoIDsInLinkTest := echoIDsInLinkTest[linkTestID := echoIDsInLinkTest[linkTestID] + [echoId]];
      history := history + [Sent(linkTestID, echoId, face)];
    }

    method OnReceiveBack(echoId: int)
      requires Valid()
      modifies this`echoMsgStateMap, this`history
      ensures Valid() && history == old(history) + [Back(echoId)]
    {
      hide TablesOf;
      OneMore(history, Back(echoId));
      if echoId in echoMsgStateMap {
        echoMsgStateMap := echoMsgStateMap[echoId := echoMsgStateMap[echoId].(answered := true)];
      }
      history := history + [Back(echoId)];
    }

    /** Sends an echo on each face to a router, or on the given face only, with the ids drawn for the faces. */
    method BroadcastEchos(linkTestID: int, isFull: bool, faceID: int, drawn: seq<int>)
      requires Valid() && linkTestID in echoIDsInLinkTest && |drawn| == |faceEntries|
      modifies this`echoIDsInLinkTest, this`echoMsgStateMap, this`history
      ensures Valid() && history == old(history) + EchoesSent(faceEntries, linkTestID, isFull, faceID, drawn, |drawn|)
      ensures echoIDsInLinkTest.Keys == old(echoIDsInLinkTest).Keys
    {
      hide Valid;
      for i := 0 to |faceEntries|
        invariant Valid() && echoIDsInLinkTest.Keys == old(echoIDsInLinkTest).Keys
        invariant history == old(history) + EchoesSent(faceEntries, linkTestID, isFull, faceID, drawn, i)
      {
        var fe := faceEntries[i];
        if fe.remoteNode == -1 { continue; }
        if !isFull && fe.faceId != faceID { continue; }
        SendEcho(linkTestID, i, drawn[i]);
      }
    }

    /**
     * One round of a test, or its end: whether another round is to be scheduled, and what is advertised if not.
     * If routers have been told the statuses of all links before, they have been told them afterwards.
     */
    method RunLinkTestsAndDoUpdate(timesForCheckPathQoS: nat, linkTestID: int, isFull: bool, faceID: int, drawn: seq<int>)
      returns (again: bool, lsa: Option<seq<NeighborStatus>>)
      requires Valid() && linkTestID in echoIDsInLinkTest && (timesForCheckPathQoS > 0 ==> |drawn| == |faceEntries|)
      modifies this
      ensures Valid() && again == (timesForCheckPathQoS > 0)
      ensures history == old(history) + if again then EchoesSent(faceEntries, linkTestID, isFull, faceID, drawn, |drawn|) else [Finished(linkTestID)]
      ensures nextLinkTestID == old(nextLinkTestID)
      ensures again ==> linkTestID in echoIDsInLinkTest && faceStatus == old(faceStatus) && prevLsa == old(prevLsa) && lsa == None
      ensures !again ==> |faceStatus| == |old(faceStatus)| && Concluded(faceEntries, TablesOf(old(history)), linkTestID, old(faceStatus), faceStatus)
      ensures !again ==> (lsa.Some? <==> !UpToDate(old(prevLsa), faceEntries, faceStatus))
      ensures lsa.Some? ==> lsa == prevLsa == Some(LinkStates(faceEntries, faceStatus)) && lsaUpdateSeqNo == old(lsaUpdateSeqNo) + 1
      ensures ParallelAgree(faceEntries, faceStatus) && old(UpToDate(prevLsa, faceEntries, faceStatus)) ==> UpToDate(prevLsa, faceEntries, faceStatus)
    {
      hide Valid, TablesOf, UpToDate, ParallelAgree, Concluded;
      lsa := None;
      assert |faceStatus| == |faceEntries| by { StatusSizes(); }
      if timesForCheckPathQoS == 0 {
        UpdateFaceStatsWithLinkTestStates(linkTestID);
        assert |faceStatus| == |faceEntries| by { StatusSizes(); }
        lsa := BroadcastingLsaTask();
        return false, lsa;
      }
      BroadcastEchos(linkTestID, isFull, faceID, drawn);
      again := true;
    }

    lemma StatusSizes()
      requires Valid()
      ensures |faceStatus| == |faceEntries|
    {
    }

    /** Advertises the statuses of all links if one of them is not what was advertised last. */
    method BroadcastingLsaTask() returns (lsa: Option<seq<NeighborStatus>>)
      requires Valid() && |faceStatus| == |faceEntries|
      modifies this`prevLsa, this`lsaUpdateSeqNo
      ensures Valid()
      ensures lsa.None? <==> UpToDate(old(prevLsa), faceEntries, faceStatus)
      ensures lsa.None? ==> prevLsa == old(prevLsa) && lsaUpdateSeqNo == old(lsaUpdateSeqNo)
      ensures lsa.Some? ==> lsa == prevLsa == Some(LinkStates(faceEntries, faceStatus)) && lsaUpdateSeqNo == old(lsaUpdateSeqNo) + 1
      ensures ParallelAgree(faceEntries, faceStatus) ==> UpToDate(prevLsa, faceEntries, faceStatus)
    {
      hide TablesOf;
      var lsList: seq<NeighborStatus>, diff := [], false;
      for i := 0 to |faceEntries|
        invariant prevLsa == old(prevLsa) && lsaUpdateSeqNo == old(lsaUpdateSeqNo) && lsList == LinkStates(faceEntries[..i], faceStatus[..i])
        invariant diff <==> exists f :: 0 <= f < i && faceEntries[f].remoteNode != -1 && Told(prevLsa, faceEntries[f].remoteNode) != Some(faceStatus[f])
      {
        var fa := faceEntries[i];
        assert faceEntries[..i + 1][..i] == faceEntries[..i] && faceStatus[..i + 1][..i] == faceStatus[..i];
        if fa.remoteNode == -1 { continue; }
        var ls := NeighborStatus(fa.remoteNode, faceStatus[i]);
        if !diff && prevLsa.Some? {
          diff := StatusDiffers(prevLsa.value, ls);
        } else if !diff && prevLsa.None? && faceStatus[i] == FailedFace {
          diff := true;
        }
        lsList := lsList + [ls];
      }
      assert faceEntries[..|faceEntries|] == faceEntries && faceStatus[..|faceEntries|] == faceStatus;
      if !diff {
        return None;
      }
      prevLsa := Some(lsList);
      lsaUpdateSeqNo := lsaUpdateSeqNo + 1;
      lsa := prevLsa;
      ToldAfter(faceEntries, faceStatus);
    }

    /**
     * Each face for which an id in the test's list has a record becomes normal if one of those was answered, and failed
     * if not; other faces are left alone.  The records of the ids in the list go, whichever test drew them last.
     */
    method UpdateFaceStatsWithLinkTestStates(linkTestID: int)
      requires Valid() && linkTestID in echoIDsInLinkTest
      modifies this`faceStatus, this`echoIDsInLinkTest, this`echoMsgStateMap, this`history
      ensures Valid() && history == old(history) + [Finished(linkTestID)]
      ensures |faceStatus| == |old(faceStatus)| && Concluded(faceEntries, TablesOf(old(history)), linkTestID, old(faceStatus), faceStatus)
    {
      hide TablesOf, FaceOfSome, FaceAnswered;
      OneMore(history, Finished(linkTestID));
      var echoIDs := echoIDsInLinkTest[linkTestID];
      var faceStatusMap := CollectStatuses(echoIDs, echoMsgStateMap);
      var records := Erase(echoMsgStateMap, echoIDs);
      faceStatus := NewStatuses(faceEntries, faceStatus, faceStatusMap);
      EndRecords(Tables(echoIDsInLinkTest, echoMsgStateMap), linkTestID, records);
      echoMsgStateMap := records;
      echoIDsInLinkTest := echoIDsInLinkTest - {linkTestID};
      history := history + [Finished(linkTestID)];
    }

    lemma TablesAre()
      requires Valid()
      ensures |faceStatus| == |faceEntries| && TablesOf(history) == Tables(echoIDsInLinkTest, echoMsgStateMap)
    {
    }

    /** If all ids drawn were unused, the test concludes from its own echoes and their answers, and nothing else. */
    lemma FreshVerdict(linkTestID: int, f: nat)
      requires Valid() && FreshDraws(history)
      ensures Verdict(TablesOf(history), linkTestID, f) ==
              if !Probed(history, linkTestID, f) then None else if SomeAnswered(history, linkTestID, f) then Some(NormalFace) else Some(FailedFace)
      ensures Verdict(TablesOf(history), linkTestID, f) == Verdict(TablesOf(ByItself(history, linkTestID)), linkTestID, f)
    {
      hide *;
      RightExactly(history);
      RightNow(history);
      VerdictMeans(TablesOf(history), history, linkTestID, f);
      FreshUndisturbed(history, linkTestID);
      UndisturbedVerdict(history, linkTestID, f);
    }
  }

  lemma EndRecords(tb: Tables, t: int, records: map<int, EchoState>)
    requires forall e :: e in records <==> e in tb.records && e !in ListAt(tb, t)
    requires forall e :: e in records ==> records[e] == tb.records[e]
    ensures End(tb, t) == Tables(tb.lists - {t}, records)
  {
    var r := End(tb, t).records;
    forall e ensures e in r.Keys <==> e in records.Keys {
      assert e in r <==> e in tb.records && e !in ListAt(tb, t);
    }
    forall e | e in r ensures r[e] == records[e] {}
    assert r == records;
  }

  /** What is concluded from a finished test about the faces that lead to routers. */
  ghost predicate Concluded(faces: seq<FaceEntry>, tb: Tables, test: int, status: seq<FaceStatus>, status': seq<FaceStatus>)
    requires |status| == |status'|
  {
    |status| == |faces| &&
    forall f :: 0 <= f < |faces| ==>
      status'[f] == if faces[f].remoteNode != -1 && Verdict(tb, test, f).Some? then Verdict(tb, test, f).value else status[f]
  }

  // ------------------------------------------------------------------------ advertisements

  /** The first status listed for a neighbour. */
  ghost function FirstStatus(l: seq<NeighborStatus>, node: int): Option<FaceStatus> {
    if l == [] then None else if l[0].node == node then Some(l[0].status) else FirstStatus(l[1..], node)
  }

  /** What the routers have been told of the link to a neighbour; before the first advertisement they take it to be normal. */
  ghost function Told(prevLsa: Option<seq<NeighborStatus>>, node: int): Option<FaceStatus> {
    if prevLsa.None? then Some(NormalFace) else FirstStatus(prevLsa.value, node)
  }

  ghost predicate UpToDate(prevLsa: Option<seq<NeighborStatus>>, faces: seq<FaceEntry>, status: seq<FaceStatus>) {
    |status| == |faces| &&
    forall f :: 0 <= f < |faces| && faces[f].remoteNode != -1 ==> Told(prevLsa, faces[f].remoteNode) == Some(status[f])
  }

  ghost function LinkStates(faces: seq<FaceEntry>, status: seq<FaceStatus>): seq<NeighborStatus>
    requires |status| == |faces|
  {
    if faces == [] then []
    else
      var k := |faces| - 1;
      var r := LinkStates(faces[..k], status[..k]);
      if faces[k].remoteNode == -1 then r else r + [NeighborStatus(faces[k].remoteNode, status[k])]
  }

  /** An advertisement lists every face to a router, with its status, and nothing else. */
  lemma {:induction false} LinkStatesMean(faces: seq<FaceEntry>, status: seq<FaceStatus>, l: NeighborStatus)
    requires |status| == |faces|
    ensures l in LinkStates(faces, status) <==> exists f :: 0 <= f < |faces| && faces[f].remoteNode != -1 && l == NeighborStatus(faces[f].remoteNode, status[f])
  {
    if faces == [] {
    } else {
      var k := |faces| - 1;
      LinkStatesMean(faces[..k], status[..k], l);
      if f :| 0 <= f < k && faces[..k][f].remoteNode != -1 && l == NeighborStatus(faces[..k][f].remoteNode, status[..k][f]) {
        assert faces[f].remoteNode != -1 && l == NeighborStatus(faces[f].remoteNode, status[f]);
      }
      if f :| 0 <= f < |faces| && faces[f].remoteNode != -1 && l == NeighborStatus(faces[f].remoteNode, status[f]) {
        assert f < k ==> faces[..k][f] == faces[f] && status[..k][f] == status[f];
      }
    }
  }

  /** Faces to the same router, if there are several, have the same status. */
  ghost predicate ParallelAgree(faces: seq<FaceEntry>, status: seq<FaceStatus>) {
    |status| == |faces| &&
    forall f, g :: 0 <= f < g < |faces| && faces[f].remoteNode == faces[g].remoteNode != -1 ==> status[f] == status[g]
  }

  lemma {:induction false} FirstAppended(l: seq<NeighborStatus>, x: NeighborStatus, node: int)
    ensures FirstStatus(l + [x], node) ==
            if FirstStatus(l, node).Some? then FirstStatus(l, node) else if x.node == node then Some(x.status) else None
  {
    if l == [] {
    } else {
      FirstAppended(l[1..], x, node);
      assert (l + [x])[1..] == l[1..] + [x];
    }
  }

  /** The status listed first for a router is that of the first face to it. */
  lemma {:induction false} FirstFace(faces: seq<FaceEntry>, status: seq<FaceStatus>, node: int)
    requires |status| == |faces| && node != -1
    ensures var t := FirstStatus(LinkStates(faces, status), node);
            if t.None? then forall f :: 0 <= f < |faces| ==> faces[f].remoteNode != node
            else exists f :: 0 <= f < |faces| && faces[f].remoteNode == node && status[f] == t.value && forall g :: 0 <= g < f ==> faces[g].remoteNode != node
  {
    if faces == [] {
    } else {
      var k := |faces| - 1;
      FirstFace(faces[..k], status[..k], node);
      FirstAppended(LinkStates(faces[..k], status[..k]), NeighborStatus(faces[k].remoteNode, status[k]), node);
      assert forall f :: 0 <= f < k ==> faces[..k][f] == faces[f] && status[..k][f] == status[f];
    }
  }

  /** An advertisement tells the status of every face exactly if faces to the same router agree. */
  lemma ToldAfter(faces: seq<FaceEntry>, status: seq<FaceStatus>)
    requires |status| == |faces|
    ensures UpToDate(Some(LinkStates(faces, status)), faces, status) <==> ParallelAgree(faces, status)
  {
    forall f | 0 <= f < |faces| && faces[f].remoteNode != -1
      ensures exists g :: 0 <= g <= f && faces[g].remoteNode == faces[f].remoteNode
                       && Told(Some(LinkStates(faces, status)), faces[f].remoteNode) == Some(status[g])
    {
      FirstFace(faces, status, faces[f].remoteNode);
    }
    hide Told;
  }

  /** Whether the neighbour is missing in the list, or first listed there with another status. */
  method StatusDiffers(prevLsa: seq<NeighborStatus>, ls: NeighborStatus) returns (diff: bool)
    ensures diff <==> FirstStatus(prevLsa, ls.node) != Some(ls.status)
  {
    for k := 0 to |prevLsa|
      invariant FirstStatus(prevLsa, ls.node) == FirstStatus(prevLsa[k..], ls.node)
    {
      if prevLsa[k].node == ls.node {
        return prevLsa[k].status != ls.status;
      }
    }
    diff := true;
  }

  ghost function EchoesSent(faces: seq<FaceEntry>, test: int, isFull: bool, faceID: int, drawn: seq<int>, k: nat): seq<TestEvent>
    requires k <= |faces| == |drawn|
  {
    if k == 0 then []
    else
      var fe, r := faces[k - 1], EchoesSent(faces, test, isFull, faceID, drawn, k - 1);
      if fe.remoteNode != -1 && (isFull || fe.faceId == faceID) then r + [Sent(test, drawn[k - 1], k - 1)] else r
  }

  /** Echoes are sent for this test only, on each face under the id drawn for it. */
  lemma {:induction false} EchoesOnly(faces: seq<FaceEntry>, test: int, isFull: bool, faceID: int, drawn: seq<int>, k: nat)
    requires k <= |faces| == |drawn|
    ensures forall e :: e in EchoesSent(faces, test, isFull, faceID, drawn, k) ==> e.Sent? && e.face < k && e == Sent(test, drawn[e.face], e.face)
  {
    if k == 0 {
    } else {
      EchoesOnly(faces, test, isFull, faceID, drawn, k - 1);
    }
  }

  /** One echo goes out on each face to a router, or on the given one only. */
  lemma {:induction false} EchoesMean(faces: seq<FaceEntry>, test: int, isFull: bool, faceID: int, drawn: seq<int>, k: nat, f: nat)
    requires k <= |faces| == |drawn| && f < |faces|
    ensures multiset(EchoesSent(faces, test, isFull, faceID, drawn, k))[Sent(test, drawn[f], f)] ==
            if f < k && faces[f].remoteNode != -1 && (isFull || faces[f].faceId == faceID) then 1 else 0
  {
    if k == 0 {
    } else {
      EchoesMean(faces, test, isFull, faceID, drawn, k - 1, f);
      EchoesOnly(faces, test, isFull, faceID, drawn, k - 1);
      var r, e := EchoesSent(faces, test, isFull, faceID, drawn, k - 1), Sent(test, drawn[k - 1], k - 1);
      hide EchoesSent;
      assert multiset(r + [e]) == multiset(r) + multiset{e};
      assert EchoesSent(faces, test, isFull, faceID, drawn, k) ==
             if faces[k - 1].remoteNode != -1 && (isFull || faces[k - 1].faceId == faceID) then r + [e] else r
        by { EchoesStep(faces, test, isFull, faceID, drawn, k); }
    }
  }

  lemma EchoesStep(faces: seq<FaceEntry>, test: int, isFull: bool, faceID: int, drawn: seq<int>, k: nat)
    requires 0 < k <= |faces| == |drawn|
    ensures EchoesSent(faces, test, isFull, faceID, drawn, k) ==
            EchoesSent(faces, test, isFull, faceID, drawn, k - 1)
            + if faces[k - 1].remoteNode != -1 && (isFull || faces[k - 1].faceId == faceID) then [Sent(test, drawn[k - 1], k - 1)] else []
  {
  }

  lemma MoreIDs(echoIDs: seq<int>, records: map<int, EchoState>, i: nat, f: nat)
    requires i < |echoIDs|
    ensures FaceOfSome(echoIDs[..i + 1], records, f) <==>
            FaceOfSome(echoIDs[..i], records, f) || (echoIDs[i] in records && records[echoIDs[i]].face == f)
    ensures FaceAnswered(echoIDs[..i + 1], records, f) <==>
            FaceAnswered(echoIDs[..i], records, f) || (echoIDs[i] in records && records[echoIDs[i]].face == f && records[echoIDs[i]].answered)
  {
    var x := echoIDs[i];
    assert echoIDs[..i + 1] == echoIDs[..i] + [x];
    assert x in echoIDs[..i + 1];
  }

  /** An id without a record gets a fresh one that belongs to no face, and so says nothing. */
  method CollectStatuses(echoIDs: seq<int>, records: map<int, EchoState>) returns (faceStatusMap: map<nat, FaceStatus>)
    ensures forall f: nat :: f in faceStatusMap <==> FaceOfSome(echoIDs, records, f)
    ensures forall f: nat :: f in faceStatusMap && faceStatusMap[f] == NormalFace <==> FaceAnswered(echoIDs, records, f)
  {
    hide FaceOfSome, FaceAnswered;
    faceStatusMap := map[];
    assert forall f: nat :: !FaceOfSome(echoIDs[..0], records, f) && !FaceAnswered(echoIDs[..0], records, f) by { NoIDs(echoIDs, records); }
    for i := 0 to |echoIDs|
      invariant forall f: nat :: f in faceStatusMap <==> FaceOfSome(echoIDs[..i], records, f)
      invariant forall f: nat :: f in faceStatusMap && faceStatusMap[f] == NormalFace <==> FaceAnswered(echoIDs[..i], records, f)
    {
      var echoID := echoIDs[i];
      forall f: nat
        ensures FaceOfSome(echoIDs[..i + 1], records, f) <==>
                FaceOfSome(echoIDs[..i], records, f) || (echoID in records && records[echoID].face == f)
        ensures FaceAnswered(echoIDs[..i + 1], records, f) <==>
                FaceAnswered(echoIDs[..i], records, f) || (echoID in records && records[echoID].face == f && records[echoID].answered)
      {
        MoreIDs(echoIDs, records, i, f);
      }
      if echoID !in records { continue; }
      var ems := records[echoID];
      if ems.face !in faceStatusMap {
        faceStatusMap := faceStatusMap[ems.face := if ems.answered then NormalFace else FailedFace];
      } else if ems.answered {
        faceStatusMap := faceStatusMap[ems.face := NormalFace];
      }
    }
    assert echoIDs[..|echoIDs|] == echoIDs;
  }

  lemma NoIDs(echoIDs: seq<int>, records: map<int, EchoState>)
    ensures forall f: nat :: !FaceOfSome(echoIDs[..0], records, f) && !FaceAnswered(echoIDs[..0], records, f)
  {
  }

  method Erase(records: map<int, EchoState>, echoIDs: seq<int>) returns (r: map<int, EchoState>)
    ensures forall e :: e in r <==> e in records && e !in echoIDs
    ensures forall e :: e in r ==> r[e] == records[e]
  {
    r := records;
    for i := 0 to |echoIDs|
      invariant forall e :: e in r <==> e in records && e !in echoIDs[..i]
      invariant forall e :: e in r ==> r[e] == records[e]
    {
      assert echoIDs[..i + 1] == echoIDs[..i] + [echoIDs[i]];
      r := r - {echoIDs[i]};
    }
    assert echoIDs[..|echoIDs|] == echoIDs;
  }

  method NewStatuses(faces: seq<FaceEntry>, status: seq<FaceStatus>, faceStatusMap: map<nat, FaceStatus>) returns (r: seq<FaceStatus>)
    requires |status| == |faces|
    ensures |r| == |status|
    ensures forall f :: 0 <= f < |faces| ==> r[f] == if faces[f].remoteNode != -1 && f in faceStatusMap then faceStatusMap[f] else status[f]
  {
    r := status;
    for i := 0 to |faces|
      invariant |r| == |status| && forall f :: i <= f < |faces| ==> r[f] == status[f]
      invariant forall f :: 0 <= f < i ==> r[f] == if faces[f].remoteNode != -1 && f in faceStatusMap then faceStatusMap[f] else status[f]
    {
      if faces[i].remoteNode == -1 { continue; }
      if i in faceStatusMap {
        r := r[i := faceStatusMap[i]];
      }
    }
  }

  // ------------------------------------------------------------------------------ witnesses

  const TWO_FACES: seq<FaceEntry> := [FaceEntry(1, 5), FaceEntry(2, 6)]

  lemma TwoFaces()
    ensures |TWO_FACES| == 2 && seq(|TWO_FACES|, _ => NormalFace) == [NormalFace, NormalFace]
  {
  }

  lemma NoTables()
    ensures TablesOf([]) == Tables(map[], map[])
  {
  }

  lemma Collided(h: seq<TestEvent>)
    requires h == [] + [Begun(0)] + [Begun(1)] + [Sent(0, 7, 0)] + [Back(7)] + [Sent(1, 7, 1)]
    ensures TablesOf(h) == Tables(map[0 := [7], 1 := [7]], map[7 := EchoState(1, false)])
    ensures TablesOf(h + [Finished(0)] + [Back(7)]) == Tables(map[1 := [7]], map[])
  {
    NoTables();
    hide TablesOf;
    OneMore([], Begun(0));
    OneMore([] + [Begun(0)], Begun(1));
    assert TablesOf([] + [Begun(0)] + [Begun(1)]) == Tables(map[0 := [], 1 := []], map[]);
    OneMore([] + [Begun(0)] + [Begun(1)], Sent(0, 7, 0));
    assert [] + [7] == [7];
    assert TablesOf([] + [Begun(0)] + [Begun(1)] + [Sent(0, 7, 0)]) == Tables(map[0 := [7], 1 := []], map[7 := EchoState(0, false)]);
    OneMore([] + [Begun(0)] + [Begun(1)] + [Sent(0, 7, 0)], Back(7));
    OneMore([] + [Begun(0)] + [Begun(1)] + [Sent(0, 7, 0)] + [Back(7)], Sent(1, 7, 1));
    assert TablesOf(h) == Tables(map[0 := [7], 1 := [7]], map[7 := EchoState(1, false)]);
    OneMore(h, Finished(0));
    EndRecords(TablesOf(h), 0, map[]);
    assert TablesOf(h + [Finished(0)]) == Tables(map[1 := [7]], map[]);
    OneMore(h + [Finished(0)], Back(7));
  }

  lemma CollidedVerdicts(h: seq<TestEvent>)
    requires TablesOf(h) == Tables(map[0 := [7], 1 := [7]], map[7 := EchoState(1, false)])
    requires TablesOf(h + [Finished(0)] + [Back(7)]) == Tables(map[1 := [7]], map[])
    ensures Verdict(TablesOf(h), 0, 0) == None && Verdict(TablesOf(h), 0, 1) == Some(FailedFace)
    ensures Verdict(TablesOf(h + [Finished(0)] + [Back(7)]), 1, 0) == Verdict(TablesOf(h + [Finished(0)] + [Back(7)]), 1, 1) == None
  {
    hide TablesOf;
    assert 7 in ListAt(TablesOf(h), 0);
  }

  /**
   * One id drawn by two tests.  The echo of the first on face 0 is answered, then the second draws the same id for face
   * 1: the first concludes that face 1, which it never probed, has failed, and takes the record away, so that an answer
   * to the second finds none.
   */
  method CollisionDisturbs() returns (first: seq<FaceStatus>, second: seq<FaceStatus>)
    ensures first == second == [NormalFace, FailedFace]
  {
    hide *;
    var lms := DrawnTwice();
    ghost var h := [] + [Begun(0)] + [Begun(1)] + [Sent(0, 7, 0)] + [Back(7)] + [Sent(1, 7, 1)];
    Collided(h);
    CollidedVerdicts(h);
    lms.TablesAre();
    lms.UpdateFaceStatsWithLinkTestStates(0);
    first := lms.faceStatus;
    Conclusion(TablesOf(h), 0, [NormalFace, NormalFace], first);
    lms.OnReceiveBack(7);
    lms.TablesAre();
    lms.UpdateFaceStatsWithLinkTestStates(1);
    second := lms.faceStatus;
    Conclusion(TablesOf(h + [Finished(0)] + [Back(7)]), 1, first, second);
  }

  method DrawnTwice() returns (lms: LinkMeasurementState)
    ensures fresh(lms) && lms.Valid() && lms.faceEntries == TWO_FACES && lms.faceStatus == [NormalFace, NormalFace]
    ensures lms.history == [] + [Begun(0)] + [Begun(1)] + [Sent(0, 7, 0)] + [Back(7)] + [Sent(1, 7, 1)]
  {
    hide *;
    lms := new LinkMeasurementState(TWO_FACES);
    TwoFaces();
    var a := lms.StartLinkTest();
    var b := lms.StartLinkTest();
    lms.SendEcho(a, 0, 7);
    lms.OnReceiveBack(7);
    lms.SendEcho(b, 1, 7);
  }

  lemma Conclusion(tb: Tables, t: int, status: seq<FaceStatus>, status': seq<FaceStatus>)
    requires |status| == |status'| == 2 && Concluded(TWO_FACES, tb, t, status, status')
    ensures forall f :: 0 <= f < 2 ==> status'[f] == if Verdict(tb, t, f).Some? then Verdict(tb, t, f).value else status[f]
  {
    assert TWO_FACES[0].remoteNode == 5 && TWO_FACES[1].remoteNode == 6;
  }

  // ---------------------------------------------------------------- two faces to one router

  const PARALLEL_FACES: seq<FaceEntry> := [FaceEntry(1, 5), FaceEntry(2, 5)]

  /** A first test probes two faces, and one of its echoes comes back. */
  lemma FirstTest(h: seq<TestEvent>)
    requires h == [] + [Begun(0)] + [Sent(0, 10, 0)] + [Sent(0, 11, 1)] + [Back(10)]
    ensures TablesOf(h) == Tables(map[0 := [10, 11]], map[10 := EchoState(0, true), 11 := EchoState(1, false)])
    ensures TablesOf(h + [Finished(0)]) == Tables(map[], map[])
  {
    NoTables();
    hide TablesOf;
    OneMore([], Begun(0));
    assert TablesOf([] + [Begun(0)]) == Tables(map[0 := []], map[]);
    OneMore([] + [Begun(0)], Sent(0, 10, 0));
    assert [] + [10] == [10] && [10] + [11] == [10, 11];
    assert TablesOf([] + [Begun(0)] + [Sent(0, 10, 0)]) == Tables(map[0 := [10]], map[10 := EchoState(0, false)]);
    OneMore([] + [Begun(0)] + [Sent(0, 10, 0)], Sent(0, 11, 1));
    OneMore([] + [Begun(0)] + [Sent(0, 10, 0)] + [Sent(0, 11, 1)], Back(10));
    var tb := Tables(map[0 := [10, 11]], map[10 := EchoState(0, true), 11 := EchoState(1, false)]);
    assert TablesOf(h) == tb;
    OneMore(h, Finished(0));
    assert ListAt(tb, 0)[0] == 10 && ListAt(tb, 0)[1] == 11;
    EndRecords(tb, 0, map[]);
  }

  lemma FirstVerdicts(tb: Tables)
    requires tb == Tables(map[0 := [10, 11]], map[10 := EchoState(0, true), 11 := EchoState(1, false)])
    ensures Verdict(tb, 0, 0) == Some(NormalFace) && Verdict(tb, 0, 1) == Some(FailedFace)
  {
    var ids := ListAt(tb, 0);
    assert ids[0] == 10 && ids[1] == 11;
    assert 10 in ids && 11 in ids;
  }

  /** A second one probes the face whose echo did not come back, and gets no answer either. */
  lemma SecondTest(h: seq<TestEvent>)
    requires TablesOf(h) == Tables(map[], map[])
    ensures var h' := h + [Begun(1)] + [Sent(1, 21, 1)];
            Verdict(TablesOf(h'), 1, 0) == None && Verdict(TablesOf(h'), 1, 1) == Some(FailedFace)
  {
    hide TablesOf;
    OneMore(h, Begun(1));
    OneMore(h + [Begun(1)], Sent(1, 21, 1));
    assert 21 in ListAt(TablesOf(h + [Begun(1)] + [Sent(1, 21, 1)]), 1);
  }

  lemma BothProbed()
    ensures EchoesSent(PARALLEL_FACES, 0, true, 0, [10, 11], 2) == [] + [Sent(0, 10, 0)] + [Sent(0, 11, 1)]
    ensures EchoesSent(PARALLEL_FACES, 1, false, 2, [20, 21], 2) == [] + [Sent(1, 21, 1)]
  {
    assert EchoesSent(PARALLEL_FACES, 0, true, 0, [10, 11], 0) == [];
    assert EchoesSent(PARALLEL_FACES, 0, true, 0, [10, 11], 1) == [] + [Sent(0, 10, 0)];
    assert EchoesSent(PARALLEL_FACES, 1, false, 2, [20, 21], 0) == [];
    assert EchoesSent(PARALLEL_FACES, 1, false, 2, [20, 21], 1) == [];
  }

  lemma Disagree(status: seq<FaceStatus>)
    requires status == [NormalFace, FailedFace]
    ensures !ParallelAgree(PARALLEL_FACES, status) && !UpToDate(None, PARALLEL_FACES, status)
  {
    assert PARALLEL_FACES[1].remoteNode == PARALLEL_FACES[0].remoteNode == 5 && status[1] != status[0] && Told(None, 5) == Some(NormalFace);
  }

  /**
   * Two faces to one router, one working and one not: the advertisement after a first test is due again after a second
   * one, which has found nothing new.
   */
  method ParallelFacesRepeat() returns (first: Option<seq<NeighborStatus>>, second: Option<seq<NeighborStatus>>)
    ensures first.Some? && second == first
  {
    hide TablesOf, Verdict, UpToDate, ParallelAgree, LinkStates, EchoesSent;
    BothProbed();
    var lms := new LinkMeasurementState(PARALLEL_FACES);
    var a := lms.StartLinkTest();
    var again;
    again, first := lms.RunLinkTestsAndDoUpdate(1, a, true, 0, [10, 11]);
    lms.OnReceiveBack(10);
    assert 0 in lms.echoIDsInLinkTest;
    assert lms.history == [] + [Begun(0)] + [Sent(0, 10, 0)] + [Sent(0, 11, 1)] + [Back(10)];
    FirstTest(lms.history);
    FirstVerdicts(TablesOf(lms.history));
    again, first := lms.RunLinkTestsAndDoUpdate(0, a, true, 0, []);
    ghost var status, h := lms.faceStatus, lms.history;
    assert status == [NormalFace, FailedFace];
    Disagree(status);
    var b := lms.StartLinkTest();
    SecondTest(h);
    again, second := lms.RunLinkTestsAndDoUpdate(1, b, false, 2, [20, 21]);
    assert lms.history == h + [Begun(1)] + [Sent(1, 21, 1)];
    again, second := lms.RunLinkTestsAndDoUpdate(0, b, false, 2, []);
    assert lms.faceStatus == status;
    ToldAfter(PARALLEL_FACES, status);
  }
}
