/** The link-status map a router keeps for a resilient route, and what a report does to it. */
module SubgraphStatus {
  import opened FibonacciForest

  datatype LinkStatus = Normal | Failure

  datatype PathCompact = PathCompact(nodeIds: seq<int>, pathID: int)

  const PRIM_PATH_LINK_ID_MARK: int := 0x8000_0000_0000_0000
  const LINK_ID_NULL: int := 0xFFFF_FFFF_FFFF_FFFF
  /** Node ids and path ids are made from non-negative values of type `int`. */
  const NODE_ID_LIMIT: int := 0x8000_0000

  // ------------------------------------------------------------------------- link ids

  /** The smaller id shifted by 32 bits, the larger one below it, and bit 63 set whether or not the shift set it. */
  function GetLinkID(nodeA: int, nodeB: int): int {
    var lo, hi := if nodeA > nodeB then nodeB else nodeA, if nodeA > nodeB then nodeA else nodeB;
    PRIM_PATH_LINK_ID_MARK + (lo % 0x8000_0000) * 0x1_0000_0000 + hi
  }

  ghost predicate SamePair(a: int, b: int, c: int, d: int) {
    (a == c && b == d) || (a == d && b == c)
  }

  function Min(a: int, b: int): int { if a > b then b else a }

  function Max(a: int, b: int): int { if a > b then a else b }

  /** Exactly when two pairs of 32-bit node ids get the same link id: the mark hides the top bit of the smaller one. */
  lemma LinkIDCollides(a: int, b: int, c: int, d: int)
    requires 0 <= a < 0x1_0000_0000 && 0 <= b < 0x1_0000_0000 && 0 <= c < 0x1_0000_0000 && 0 <= d < 0x1_0000_0000
    ensures GetLinkID(a, b) == GetLinkID(c, d) <==>
            Max(a, b) == Max(c, d) && (Min(a, b) == Min(c, d) || Min(a, b) - Min(c, d) == 0x8000_0000 || Min(c, d) - Min(a, b) == 0x8000_0000)
  {
    var x, y := Min(a, b) % 0x8000_0000, Min(c, d) % 0x8000_0000;
    assert GetLinkID(a, b) == PRIM_PATH_LINK_ID_MARK + x * 0x1_0000_0000 + Max(a, b);
    assert GetLinkID(c, d) == PRIM_PATH_LINK_ID_MARK + y * 0x1_0000_0000 + Max(c, d);
  }

  /** Two different links of one id. */
  lemma LinkIDNotInjective()
    ensures GetLinkID(0, 0x8000_0001) == GetLinkID(0x8000_0000, 0x8000_0001)
  {
  }

  /** Below 2^31 a link id stands for one unordered pair, and is neither a path id nor the null id. */
  lemma LinkIDExact(a: int, b: int, c: int, d: int)
    requires 0 <= a < NODE_ID_LIMIT && 0 <= b < NODE_ID_LIMIT && 0 <= c < NODE_ID_LIMIT && 0 <= d < NODE_ID_LIMIT
    ensures GetLinkID(a, b) == GetLinkID(c, d) <==> SamePair(a, b, c, d)
    ensures PRIM_PATH_LINK_ID_MARK <= GetLinkID(a, b) < LINK_ID_NULL
  {
    LinkIDCollides(a, b, c, d);
  }

  // --------------------------------------------------------------------- link statuses

  /** What a router was told last about the two ends of a link. */
  datatype Report = Report(nodeA: int, nodeB: int, status: LinkStatus)

  ghost function LastReport(reports: seq<Report>, a: int, b: int): LinkStatus {
    if reports == [] then Normal
    else
      var r := reports[|reports| - 1];
      if SamePair(r.nodeA, r.nodeB, a, b) then r.status else LastReport(reports[..|reports| - 1], a, b)
  }

  /** An absent entry reads as the zero value. */
  function StatusOf(m: map<int, LinkStatus>, id: int): LinkStatus {
    if id in m then m[id] else Normal
  }

  /** The i-th link of a path joins these two nodes. */
  ghost predicate HopAt(path: PathCompact, i: int, a: int, b: int) {
    0 < i < |path.nodeIds| && SamePair(path.nodeIds[i - 1], path.nodeIds[i], a, b)
  }

  ghost predicate On(path: PathCompact, a: int, b: int) {
    exists i :: HopAt(path, i, a, b)
  }

  ghost predicate NodeIdsFit(path: PathCompact) {
    && 0 <= path.pathID < NODE_ID_LIMIT && |path.nodeIds| >= 1
    && forall i :: 0 <= i < |path.nodeIds| ==> 0 <= path.nodeIds[i] < NODE_ID_LIMIT
  }

  ghost predicate IsRsp(hrsp: seq<seq<PathCompact>>, i: int, k: int) {
    1 <= i < |hrsp| && 0 <= k < |hrsp[i]|
  }

  /**
   * The sub-paths listed for the i-th node of the primary path lead from it to an upstream node.  All path
   * ids differ; they are numbered on from the primary path's, so that 0 is not the id of a sub-path.
   */
  ghost predicate Layout(primPath: PathCompact, hrsp: seq<seq<PathCompact>>) {
    && NodeIdsFit(primPath) && NoDup(primPath.nodeIds) && |hrsp| == |primPath.nodeIds|
    && (forall i, k :: IsRsp(hrsp, i, k) ==> RspFits(primPath, hrsp[i][k], i))
    && (forall i, k, j, l :: IsRsp(hrsp, i, k) && IsRsp(hrsp, j, l) && hrsp[i][k].pathID == hrsp[j][l].pathID ==> i == j && k == l)
  }

  ghost predicate RspFits(primPath: PathCompact, rsp: PathCompact, i: int) {
    && NodeIdsFit(rsp) && rsp.pathID >= 1 && rsp.pathID != primPath.pathID && 0 <= i < |primPath.nodeIds|
    && rsp.nodeIds[0] == primPath.nodeIds[i] && rsp.nodeIds[|rsp.nodeIds| - 1] in primPath.nodeIds[..i]
  }

  ghost predicate Known(primPath: PathCompact, hrsp: seq<seq<PathCompact>>, a: int, b: int) {
    On(primPath, a, b) || exists i, k :: IsRsp(hrsp, i, k) && On(hrsp[i][k], a, b)
  }

  /** Some link of the path was last reported to have failed. */
  ghost predicate Broken(path: PathCompact, reports: seq<Report>) {
    exists i :: 0 < i < |path.nodeIds| && LastReport(reports, path.nodeIds[i - 1], path.nodeIds[i]) == Failure
  }

  ghost predicate LinksRight(primPath: PathCompact, hrsp: seq<seq<PathCompact>>, m: map<int, LinkStatus>, reports: seq<Report>) {
    forall a, b :: Known(primPath, hrsp, a, b) ==> StatusOf(m, GetLinkID(a, b)) == LastReport(reports, a, b)
  }

  ghost predicate PathsRight(hrsp: seq<seq<PathCompact>>, m: map<int, LinkStatus>, reports: seq<Report>) {
    forall i, k :: IsRsp(hrsp, i, k) ==> (StatusOf(m, hrsp[i][k].pathID) == Failure <==> Broken(hrsp[i][k], reports))
  }

  /** The id of the first link of the path that joins the two nodes. */
  method SearchVirLink(path: PathCompact, nodeIngress: int, nodeEgress: int) returns (id: int)
    requires NodeIdsFit(path)
    ensures On(path, nodeIngress, nodeEgress) <==> id != LINK_ID_NULL
    ensures id != LINK_ID_NULL ==> id == GetLinkID(nodeIngress, nodeEgress)
  {
    hide GetLinkID;
    for i := 1 to |path.nodeIds|
      invariant forall j :: j < i ==> !HopAt(path, j, nodeIngress, nodeEgress)
    {
      var nodeID, nodeIDprev := path.nodeIds[i], path.nodeIds[i - 1];
      if (nodeIDprev == nodeIngress && nodeID == nodeEgress) || (nodeID == nodeIngress && nodeIDprev == nodeEgress) {
        assert HopAt(path, i, nodeIngress, nodeEgress);
        LinkIDExact(nodeIDprev, nodeID, nodeIngress, nodeEgress);
        return GetLinkID(nodeIDprev, nodeID);
      }
    }
    id := LINK_ID_NULL;
  }

  ghost predicate PathFails(path: PathCompact, m: map<int, LinkStatus>) {
    exists j :: 0 < j < |path.nodeIds| && StatusOf(m, GetLinkID(path.nodeIds[j - 1], path.nodeIds[j])) == Failure
  }

  method RspStatus(rsp: PathCompact, m: map<int, LinkStatus>) returns (status: LinkStatus)
    requires |rsp.nodeIds| >= 1
    ensures status == if PathFails(rsp, m) then Failure else Normal
  {
    hide GetLinkID, StatusOf;
    status := Normal;
    var nodeIDprev := rsp.nodeIds[0];
    for j := 1 to |rsp.nodeIds|
      invariant nodeIDprev == rsp.nodeIds[j - 1] && status == Normal
      invariant forall l :: 0 < l < j ==> StatusOf(m, GetLinkID(rsp.nodeIds[l - 1], rsp.nodeIds[l])) != Failure
    {
      var nodeID := rsp.nodeIds[j];
      if StatusOf(m, GetLinkID(nodeIDprev, nodeID)) == Failure {
        status := Failure;
        break;
      }
      nodeIDprev := nodeID;
    }
  }

  /** The map once a report has reached one sub-path. */
  ghost function RspUpdated(m: map<int, LinkStatus>, rsp: PathCompact, r: Report): map<int, LinkStatus> {
    if On(rsp, r.nodeA, r.nodeB) then
      var m' := m[GetLinkID(r.nodeA, r.nodeB) := r.status];
      m'[rsp.pathID := if PathFails(rsp, m') then Failure else Normal]
    else m
  }

  method UpdateRsp(m: map<int, LinkStatus>, rsp: PathCompact, nodeA: int, nodeB: int, status: LinkStatus) returns (m': map<int, LinkStatus>)
    requires NodeIdsFit(rsp)
    ensures m' == RspUpdated(m, rsp, Report(nodeA, nodeB, status))
  {
    hide GetLinkID, On, PathFails;
    m' := m;
    var virLinkId := SearchVirLink(rsp, nodeA, nodeB);
    if virLinkId == LINK_ID_NULL { return; }
    m' := m'[virLinkId := status];
    var rspStatus := RspStatus(rsp, m');
    m' := m'[rsp.pathID := rspStatus];
  }

  // What holds while a report goes through the sub-paths and has passed those before (i, k).

  ghost predicate Before(j: int, l: int, i: int, k: int) {
    j < i || (j == i && l < k)
  }

  ghost predicate OthersRight(primPath: PathCompact, hrsp: seq<seq<PathCompact>>, m: map<int, LinkStatus>, reports: seq<Report>, r: Report) {
    forall a, b :: Known(primPath, hrsp, a, b) && !SamePair(r.nodeA, r.nodeB, a, b) ==> StatusOf(m, GetLinkID(a, b)) == LastReport(reports, a, b)
  }

  ghost predicate PathsUpTo(hrsp: seq<seq<PathCompact>>, m: map<int, LinkStatus>, reports: seq<Report>, r: Report, i: int, k: int) {
    forall j, l :: IsRsp(hrsp, j, l) ==>
      (StatusOf(m, hrsp[j][l].pathID) == Failure <==> Broken(hrsp[j][l], if Before(j, l, i, k) then reports + [r] else reports))
  }

  ghost predicate Reported(primPath: PathCompact, hrsp: seq<seq<PathCompact>>, m: map<int, LinkStatus>, r: Report, i: int, k: int) {
    && (On(primPath, r.nodeA, r.nodeB) ==> StatusOf(m, GetLinkID(r.nodeA, r.nodeB)) == r.status)
    && (forall j, l :: IsRsp(hrsp, j, l) && Before(j, l, i, k) && On(hrsp[j][l], r.nodeA, r.nodeB) ==>
         StatusOf(m, GetLinkID(r.nodeA, r.nodeB)) == r.status)
  }

  ghost predicate Updating(primPath: PathCompact, hrsp: seq<seq<PathCompact>>, m: map<int, LinkStatus>, reports: seq<Report>, r: Report,
                           i: int, k: int)
  {
    OthersRight(primPath, hrsp, m, reports, r) && PathsUpTo(hrsp, m, reports, r, i, k) && Reported(primPath, hrsp, m, r, i, k) && ZeroNormal(m)
  }

  /** The links of sub-paths carry no link id of their own but 0, which no report ever touches. */
  ghost predicate ZeroNormal(m: map<int, LinkStatus>) {
    StatusOf(m, 0) == Normal
  }

  lemma StepZero(primPath: PathCompact, hrsp: seq<seq<PathCompact>>, m: map<int, LinkStatus>, r: Report, i: int, k: int)
    requires Layout(primPath, hrsp) && ZeroNormal(m) && IsRsp(hrsp, i, k)
    ensures ZeroNormal(RspUpdated(m, hrsp[i][k], r))
  {
  }

  lemma KnownFits(primPath: PathCompact, hrsp: seq<seq<PathCompact>>, a: int, b: int)
    requires Layout(primPath, hrsp) && Known(primPath, hrsp, a, b)
    ensures 0 <= a < NODE_ID_LIMIT && 0 <= b < NODE_ID_LIMIT
  {
  }

  /** A path id is not the id of a link. */
  lemma PathIdApart(hrsp: seq<seq<PathCompact>>, primPath: PathCompact, i: int, k: int, a: int, b: int)
    requires Layout(primPath, hrsp) && IsRsp(hrsp, i, k) && 0 <= a < NODE_ID_LIMIT && 0 <= b < NODE_ID_LIMIT
    ensures hrsp[i][k].pathID != GetLinkID(a, b)
  {
    hide NoDup;
    LinkIDExact(a, b, a, b);
  }

  lemma StepOthers(primPath: PathCompact, hrsp: seq<seq<PathCompact>>, m: map<int, LinkStatus>, reports: seq<Report>, r: Report, i: int, k: int)
    requires Layout(primPath, hrsp) && OthersRight(primPath, hrsp, m, reports, r) && IsRsp(hrsp, i, k)
    ensures OthersRight(primPath, hrsp, RspUpdated(m, hrsp[i][k], r), reports, r)
  {
    hide GetLinkID, Layout, PathFails, On, LastReport, Known;
    var m' := RspUpdated(m, hrsp[i][k], r);
    if On(hrsp[i][k], r.nodeA, r.nodeB) {
      RspKnown(primPath, hrsp, i, k, r.nodeA, r.nodeB);
      KnownFits(primPath, hrsp, r.nodeA, r.nodeB);
      forall a, b | Known(primPath, hrsp, a, b) && !SamePair(r.nodeA, r.nodeB, a, b) ensures StatusOf(m', GetLinkID(a, b)) == LastReport(reports, a, b) {
        KnownFits(primPath, hrsp, a, b);
        LinkIDExact(r.nodeA, r.nodeB, a, b);
        PathIdApart(hrsp, primPath, i, k, a, b);
      }
    }
  }

  lemma RspKnown(primPath: PathCompact, hrsp: seq<seq<PathCompact>>, i: int, k: int, a: int, b: int)
    requires IsRsp(hrsp, i, k) && On(hrsp[i][k], a, b)
    ensures Known(primPath, hrsp, a, b)
  {
  }

  lemma HopKnown(primPath: PathCompact, hrsp: seq<seq<PathCompact>>, i: int, k: int, j: int)
    requires IsRsp(hrsp, i, k) && 0 < j < |hrsp[i][k].nodeIds|
    ensures Known(primPath, hrsp, hrsp[i][k].nodeIds[j - 1], hrsp[i][k].nodeIds[j]) && On(hrsp[i][k], hrsp[i][k].nodeIds[j - 1], hrsp[i][k].nodeIds[j])
  {
    assert HopAt(hrsp[i][k], j, hrsp[i][k].nodeIds[j - 1], hrsp[i][k].nodeIds[j]);
  }

  lemma LastAppended(reports: seq<Report>, r: Report, a: int, b: int)
    ensures LastReport(reports + [r], a, b) == if SamePair(r.nodeA, r.nodeB, a, b) then r.status else LastReport(reports, a, b)
  {
  }

  /** A sub-path the report does not touch is as broken as before. */
  lemma NotTouched(path: PathCompact, reports: seq<Report>, r: Report)
    requires !On(path, r.nodeA, r.nodeB)
    ensures Broken(path, reports + [r]) <==> Broken(path, reports)
  {
    hide LastReport;
    forall j | 0 < j < |path.nodeIds|
      ensures LastReport(reports + [r], path.nodeIds[j - 1], path.nodeIds[j]) == LastReport(reports, path.nodeIds[j - 1], path.nodeIds[j])
    {
      LastAppended(reports, r, path.nodeIds[j - 1], path.nodeIds[j]);
      assert !HopAt(path, j, r.nodeA, r.nodeB);
    }
  }

  /** Once the reported link is entered, the path fails if the reports say so. */
  lemma Touched(primPath: PathCompact, hrsp: seq<seq<PathCompact>>, m: map<int, LinkStatus>, reports: seq<Report>, r: Report, i: int, k: int)
    requires Layout(primPath, hrsp) && OthersRight(primPath, hrsp, m, reports, r) && IsRsp(hrsp, i, k) && On(hrsp[i][k], r.nodeA, r.nodeB)
    ensures PathFails(hrsp[i][k], m[GetLinkID(r.nodeA, r.nodeB) := r.status]) <==> Broken(hrsp[i][k], reports + [r])
  {
    hide GetLinkID, Layout, On, LastReport, Known;
    var path, m' := hrsp[i][k], m[GetLinkID(r.nodeA, r.nodeB) := r.status];
    RspKnown(primPath, hrsp, i, k, r.nodeA, r.nodeB);
    KnownFits(primPath, hrsp, r.nodeA, r.nodeB);
    forall j | 0 < j < |path.nodeIds|
      ensures StatusOf(m', GetLinkID(path.nodeIds[j - 1], path.nodeIds[j])) == LastReport(reports + [r], path.nodeIds[j - 1], path.nodeIds[j])
    {
      var a, b := path.nodeIds[j - 1], path.nodeIds[j];
      HopKnown(primPath, hrsp, i, k, j);
      KnownFits(primPath, hrsp, a, b);
      LastAppended(reports, r, a, b);
      LinkIDExact(r.nodeA, r.nodeB, a, b);
    }
  }

  lemma StepPaths(primPath: PathCompact, hrsp: seq<seq<PathCompact>>, m: map<int, LinkStatus>, reports: seq<Report>, r: Report, i: int, k: int)
    requires Layout(primPath, hrsp) && OthersRight(primPath, hrsp, m, reports, r) && PathsUpTo(hrsp, m, reports, r, i, k) && IsRsp(hrsp, i, k)
    ensures PathsUpTo(hrsp, RspUpdated(m, hrsp[i][k], r), reports, r, i, k + 1)
  {
    hide GetLinkID, Layout, PathFails, On, LastReport, Known, OthersRight, Broken;
    var path, m' := hrsp[i][k], RspUpdated(m, hrsp[i][k], r);
    forall j, l | IsRsp(hrsp, j, l)
      ensures StatusOf(m', hrsp[j][l].pathID) == Failure <==> Broken(hrsp[j][l], if Before(j, l, i, k + 1) then reports + [r] else reports)
    {
      if On(path, r.nodeA, r.nodeB) {
        RspKnown(primPath, hrsp, i, k, r.nodeA, r.nodeB);
        KnownFits(primPath, hrsp, r.nodeA, r.nodeB);
        PathIdApart(hrsp, primPath, j, l, r.nodeA, r.nodeB);
        if j == i && l == k {
          Touched(primPath, hrsp, m, reports, r, i, k);
        } else {
          PathIdsDiffer(primPath, hrsp, i, k, j, l);
        }
      } else if j == i && l == k {
        NotTouched(path, reports, r);
      }
    }
  }

  lemma PathIdsDiffer(primPath: PathCompact, hrsp: seq<seq<PathCompact>>, i: int, k: int, j: int, l: int)
    requires Layout(primPath, hrsp) && IsRsp(hrsp, i, k) && IsRsp(hrsp, j, l) && (i != j || k != l)
    ensures hrsp[i][k].pathID != hrsp[j][l].pathID
  {
  }

  lemma StepReported(primPath: PathCompact, hrsp: seq<seq<PathCompact>>, m: map<int, LinkStatus>, r: Report, i: int, k: int)
    requires Layout(primPath, hrsp) && Reported(primPath, hrsp, m, r, i, k) && IsRsp(hrsp, i, k)
    ensures Reported(primPath, hrsp, RspUpdated(m, hrsp[i][k], r), r, i, k + 1)
  {
  }

  lemma Step(primPath: PathCompact, hrsp: seq<seq<PathCompact>>, m: map<int, LinkStatus>, reports: seq<Report>, r: Report, i: int, k: int)
    requires Layout(primPath, hrsp) && Updating(primPath, hrsp, m, reports, r, i, k) && IsRsp(hrsp, i, k)
    ensures Updating(primPath, hrsp, RspUpdated(m, hrsp[i][k], r), reports, r, i, k + 1)
  {
    hide Layout, OthersRight, PathsUpTo, Reported, Updating, RspUpdated, ZeroNormal;
    assert OthersRight(primPath, hrsp, m, reports, r) && PathsUpTo(hrsp, m, reports, r, i, k) && Reported(primPath, hrsp, m, r, i, k) && ZeroNormal(m) by {
      UpdatingParts(primPath, hrsp, m, reports, r, i, k);
    }
    StepOthers(primPath, hrsp, m, reports, r, i, k);
    StepPaths(primPath, hrsp, m, reports, r, i, k);
    StepReported(primPath, hrsp, m, r, i, k);
    StepZero(primPath, hrsp, m, r, i, k);
    UpdatingParts(primPath, hrsp, RspUpdated(m, hrsp[i][k], r), reports, r, i, k + 1);
  }

  lemma UpdatingParts(primPath: PathCompact, hrsp: seq<seq<PathCompact>>, m: map<int, LinkStatus>, reports: seq<Report>, r: Report, i: int, k: int)
    ensures Updating(primPath, hrsp, m, reports, r, i, k) <==>
            OthersRight(primPath, hrsp, m, reports, r) && PathsUpTo(hrsp, m, reports, r, i, k) && Reported(primPath, hrsp, m, r, i, k) && ZeroNormal(m)
  {
  }

  lemma NextRow(primPath: PathCompact, hrsp: seq<seq<PathCompact>>, m: map<int, LinkStatus>, reports: seq<Report>, r: Report, i: int)
    requires 1 <= i < |hrsp| && Updating(primPath, hrsp, m, reports, r, i, |hrsp[i]|)
    ensures Updating(primPath, hrsp, m, reports, r, i + 1, 0)
  {
    hide GetLinkID, On, Known, LastReport, Broken;
  }

  lemma UpdateStarts(primPath: PathCompact, hrsp: seq<seq<PathCompact>>, m: map<int, LinkStatus>, reports: seq<Report>, r: Report)
    requires Layout(primPath, hrsp) && LinksRight(primPath, hrsp, m, reports) && PathsRight(hrsp, m, reports) && ZeroNormal(m)
    ensures var m' := if On(primPath, r.nodeA, r.nodeB) then m[GetLinkID(r.nodeA, r.nodeB) := r.status] else m;
            Updating(primPath, hrsp, m', reports, r, 1, 0)
  {
    hide GetLinkID, Layout, On, LastReport, Known, Broken;
    if On(primPath, r.nodeA, r.nodeB) {
      assert Known(primPath, hrsp, r.nodeA, r.nodeB) by { PrimKnown(primPath, hrsp, r.nodeA, r.nodeB); }
      KnownFits(primPath, hrsp, r.nodeA, r.nodeB);
      LinkIDExact(r.nodeA, r.nodeB, r.nodeA, r.nodeB);
      forall a, b | Known(primPath, hrsp, a, b) && !SamePair(r.nodeA, r.nodeB, a, b) ensures GetLinkID(a, b) != GetLinkID(r.nodeA, r.nodeB) {
        KnownFits(primPath, hrsp, a, b);
        LinkIDExact(r.nodeA, r.nodeB, a, b);
      }
      forall j, l | IsRsp(hrsp, j, l) ensures hrsp[j][l].pathID != GetLinkID(r.nodeA, r.nodeB) {
        PathIdApart(hrsp, primPath, j, l, r.nodeA, r.nodeB);
      }
    }
  }

  lemma PrimKnown(primPath: PathCompact, hrsp: seq<seq<PathCompact>>, a: int, b: int)
    requires On(primPath, a, b)
    ensures Known(primPath, hrsp, a, b)
  {
  }

  lemma UpdateEnds(primPath: PathCompact, hrsp: seq<seq<PathCompact>>, m: map<int, LinkStatus>, reports: seq<Report>, r: Report)
    requires Layout(primPath, hrsp) && Updating(primPath, hrsp, m, reports, r, |hrsp|, 0)
    ensures LinksRight(primPath, hrsp, m, reports + [r]) && PathsRight(hrsp, m, reports + [r]) && ZeroNormal(m)
  {
    hide GetLinkID, Layout, On, LastReport, Broken;
    forall a, b | Known(primPath, hrsp, a, b) ensures StatusOf(m, GetLinkID(a, b)) == LastReport(reports + [r], a, b) {
      LastAppended(reports, r, a, b);
      if SamePair(r.nodeA, r.nodeB, a, b) {
        KnownFits(primPath, hrsp, a, b);
        LinkIDExact(r.nodeA, r.nodeB, a, b);
        SamePairKnown(primPath, hrsp, a, b, r.nodeA, r.nodeB);
      }
    }
  }

  lemma SamePairKnown(primPath: PathCompact, hrsp: seq<seq<PathCompact>>, a: int, b: int, c: int, d: int)
    requires Known(primPath, hrsp, a, b) && SamePair(c, d, a, b)
    ensures On(primPath, c, d) || exists i, k :: IsRsp(hrsp, i, k) && On(hrsp[i][k], c, d)
  {
    if On(primPath, a, b) {
      var i :| HopAt(primPath, i, a, b);
      assert HopAt(primPath, i, c, d);
    } else {
      var i, k :| IsRsp(hrsp, i, k) && On(hrsp[i][k], a, b);
      var j :| HopAt(hrsp[i][k], j, a, b);
      assert HopAt(hrsp[i][k], j, c, d);
    }
  }
}
