/**
 * What a router records of the echoes it sends in several tests at once: a list of echo ids for each test, and one record
 * for each id, whichever test drew it last.  Ids are drawn at random, so that an id may be drawn that is still in use.
 */
module EchoTables {
  import opened Common
  import opened FibonacciForest

  datatype FaceStatus = NormalFace | FailedFace

  datatype EchoState = EchoState(face: nat, answered: bool)

  datatype Tables = Tables(lists: map<int, seq<int>>, records: map<int, EchoState>)

  /** What happens at a router, as far as tests are concerned; a face is named by its place in the list of faces. */
  datatype TestEvent = Begun(test: int) | Sent(test: int, echo: int, face: nat) | Back(echo: int) | Finished(test: int)

  /** Asking for the list of a test makes an empty one if there is none. */
  function ListAt(tb: Tables, t: int): seq<int> {
    if t in tb.lists then tb.lists[t] else []
  }

  /** A record that is there already for the id drawn is overwritten, but the id stays in the list of the test that drew it before. */
  function Draw(tb: Tables, t: int, echo: int, face: nat): Tables {
    Tables(tb.lists[t := ListAt(tb, t) + [echo]], tb.records[echo := EchoState(face, false)])
  }

  function Answer(tb: Tables, echo: int): Tables {
    if echo in tb.records then tb.(records := tb.records[echo := tb.records[echo].(answered := true)]) else tb
  }

  /** The records of all ids in the list of the test go, whichever test drew them last. */
  function End(tb: Tables, t: int): Tables {
    Tables(tb.lists - {t}, map e | e in tb.records && e !in ListAt(tb, t) :: tb.records[e])
  }

  function Stepped(tb: Tables, e: TestEvent): Tables {
    match e
    case Begun(t) => tb.(lists := tb.lists[t := ListAt(tb, t)])
    case Sent(t, echo, face) => Draw(tb, t, echo, face)
    case Back(echo) => Answer(tb, echo)
    case Finished(t) => End(tb, t)
  }

  ghost function TablesOf(h: seq<TestEvent>): Tables {
    if h == [] then Tables(map[], map[]) else Stepped(TablesOf(h[..|h| - 1]), h[|h| - 1])
  }

  lemma OneMore(h: seq<TestEvent>, e: TestEvent)
    ensures (h + [e])[..|h + [e]| - 1] == h && (h + [e])[|h + [e]| - 1] == e
    ensures TablesOf(h + [e]) == Stepped(TablesOf(h), e)
  {
    assert (h + [e])[..|h|] == h;
  }

  // ---------------------------------------------------------------------------- conclusions

  /** Some id of the list has a record for this face. */
  ghost predicate FaceOfSome(ids: seq<int>, records: map<int, EchoState>, f: nat) {
    exists e :: e in ids && e in records && records[e].face == f
  }

  ghost predicate FaceAnswered(ids: seq<int>, records: map<int, EchoState>, f: nat) {
    exists e :: e in ids && e in records && records[e].face == f && records[e].answered
  }

  /** What a test would conclude about a face if it ended now. */
  ghost function Verdict(tb: Tables, t: int, f: nat): Option<FaceStatus> {
    if !FaceOfSome(ListAt(tb, t), tb.records, f) then None
    else if FaceAnswered(ListAt(tb, t), tb.records, f) then Some(NormalFace)
    else Some(FailedFace)
  }

  /** As `FaceOfSome` and `FaceAnswered`, but for some ids. */
  ghost predicate FaceElse(ids: seq<int>, records: map<int, EchoState>, f: nat, but: set<int>) {
    exists e :: e in ids && e !in but && e in records && records[e].face == f
  }

  ghost predicate AnsweredElse(ids: seq<int>, records: map<int, EchoState>, f: nat, but: set<int>) {
    exists e :: e in ids && e !in but && e in records && records[e].face == f && records[e].answered
  }

  /** What the record of `x` says of its face is said by no other id of the list, those in `but` aside. */
  ghost predicate RestsOn(ids: seq<int>, records: map<int, EchoState>, x: int, but: set<int>)
    requires x in records
  {
    !FaceElse(ids, records, records[x].face, but) || (records[x].answered && !AnsweredElse(ids, records, records[x].face, but))
  }

  /** What a draw by another test makes of what a test would conclude. */
  lemma DrawByOther(tb: Tables, t: int, o: int, echo: int, face: nat, f: nat)
    requires o != t
    ensures var tb' := Draw(tb, o, echo, face); var ids := ListAt(tb, t);
            && ListAt(tb', t) == ids
            && (FaceOfSome(ids, tb'.records, f) <==> FaceElse(ids, tb.records, f, {echo}) || (echo in ids && f == face))
            && (FaceAnswered(ids, tb'.records, f) <==> AnsweredElse(ids, tb.records, f, {echo}))
  {
    var tb', ids := Draw(tb, o, echo, face), ListAt(tb, t);
    RedrawnRecords(ids, tb.records, echo, face, f);
  }

  lemma RedrawnRecords(ids: seq<int>, records: map<int, EchoState>, echo: int, face: nat, f: nat)
    ensures var records' := records[echo := EchoState(face, false)];
            && (FaceOfSome(ids, records', f) <==> FaceElse(ids, records, f, {echo}) || (echo in ids && f == face))
            && (FaceAnswered(ids, records', f) <==> AnsweredElse(ids, records, f, {echo}))
  {
    var records' := records[echo := EchoState(face, false)];
    if FaceElse(ids, records, f, {echo}) {
      var e :| e in ids && e !in {echo} && e in records && records[e].face == f;
      assert e in records' && records'[e].face == f;
    }
    if AnsweredElse(ids, records, f, {echo}) {
      var e :| e in ids && e !in {echo} && e in records && records[e].face == f && records[e].answered;
      assert e in records' && records'[e].face == f;
    }
    if echo in ids && f == face {
      assert records'[echo].face == f;
    }
  }

  /** The ids of a list split into one and the rest. */
  lemma OneAndRest(ids: seq<int>, records: map<int, EchoState>, x: int, f: nat)
    ensures FaceOfSome(ids, records, f) <==> FaceElse(ids, records, f, {x}) || (x in ids && x in records && records[x].face == f)
    ensures FaceAnswered(ids, records, f) <==>
            AnsweredElse(ids, records, f, {x}) || (x in ids && x in records && records[x].face == f && records[x].answered)
  {
  }

  /** The draw of `echo` for `face` changes what the other echoes of the test would not say by themselves. */
  ghost predicate DrawMatters(ids: seq<int>, records: map<int, EchoState>, echo: int, face: nat) {
    && echo in ids
    && (if echo in records && records[echo].face == face
        then records[echo].answered && !AnsweredElse(ids, records, face, {echo})
        else (echo in records && RestsOn(ids, records, echo, {echo})) || !FaceElse(ids, records, face, {echo}))
  }

  /** Exactly when a draw changes what another test would conclude about some face. */
  lemma DrawChanges(tb: Tables, t: int, o: int, echo: int, face: nat)
    requires o != t
    ensures (exists f: nat :: Verdict(Draw(tb, o, echo, face), t, f) != Verdict(tb, t, f)) <==> DrawMatters(ListAt(tb, t), tb.records, echo, face)
  {
    var tb', ids, records := Draw(tb, o, echo, face), ListAt(tb, t), tb.records;
    hide FaceElse, AnsweredElse, FaceOfSome, FaceAnswered;
    forall f: nat
      ensures Verdict(tb, t, f) == Merged(ids, records, echo, f)
      ensures Verdict(tb', t, f) == Redrawn(ids, records, echo, face, f)
    {
      OneAndRest(ids, records, echo, f);
      DrawByOther(tb, t, o, echo, face, f);
    }
    if DrawMatters(ids, records, echo, face) {
      var f := if echo in records && RestsOn(ids, records, echo, {echo}) then records[echo].face else face;
      assert Verdict(tb', t, f) != Verdict(tb, t, f);
    }
  }

  ghost function Said(probed: bool, answered: bool): Option<FaceStatus> {
    if !probed then None else if answered then Some(NormalFace) else Some(FailedFace)
  }

  /** The verdict as put together from the echo `x` and the others. */
  ghost function Merged(ids: seq<int>, records: map<int, EchoState>, x: int, f: nat): Option<FaceStatus> {
    var own := x in ids && x in records && records[x].face == f;
    Said(FaceElse(ids, records, f, {x}) || own, AnsweredElse(ids, records, f, {x}) || (own && records[x].answered))
  }

  ghost function Redrawn(ids: seq<int>, records: map<int, EchoState>, x: int, face: nat, f: nat): Option<FaceStatus> {
    Said(FaceElse(ids, records, f, {x}) || (x in ids && f == face), AnsweredElse(ids, records, f, {x}))
  }

  /** Exactly when it matters to a test itself that it draws an id again, rather than an unused one. */
  lemma RedrawChanges(tb: Tables, t: int, echo: int, unused: int, face: nat)
    requires unused !in ListAt(tb, t)
    ensures (exists f: nat :: Verdict(Draw(tb, t, echo, face), t, f) != Verdict(Draw(tb, t, unused, face), t, f)) <==>
            echo in ListAt(tb, t) && echo in tb.records
            && (if tb.records[echo].face == face then tb.records[echo].answered && !AnsweredElse(ListAt(tb, t), tb.records, face, {echo})
                else RestsOn(ListAt(tb, t), tb.records, echo, {echo}))
  {
    var ids, records := ListAt(tb, t), tb.records;
    hide FaceElse, AnsweredElse, FaceOfSome, FaceAnswered;
    forall f: nat
      ensures Verdict(Draw(tb, t, echo, face), t, f) ==
              Said(FaceElse(ids, records, f, {echo}) || f == face, AnsweredElse(ids, records, f, {echo}))
      ensures Verdict(Draw(tb, t, unused, face), t, f) ==
              Said(FaceOfSome(ids, records, f) || f == face, FaceAnswered(ids, records, f))
    {
      DrawByItself(tb, t, echo, face, f);
      DrawByItself(tb, t, unused, face, f);
      OneAndRest(ids, records, unused, f);
    }
    forall f: nat
      ensures FaceOfSome(ids, records, f) <==> FaceElse(ids, records, f, {echo}) || (echo in ids && echo in records && records[echo].face == f)
      ensures FaceAnswered(ids, records, f) <==>
              AnsweredElse(ids, records, f, {echo}) || (echo in ids && echo in records && records[echo].face == f && records[echo].answered)
    {
      OneAndRest(ids, records, echo, f);
    }
    if echo in ids && echo in records {
      var f := records[echo].face;
      assert f != face && !FaceElse(ids, records, f, {echo}) ==> Verdict(Draw(tb, t, echo, face), t, f) != Verdict(Draw(tb, t, unused, face), t, f);
      assert records[echo].answered && !AnsweredElse(ids, records, f, {echo}) ==>
             Verdict(Draw(tb, t, echo, face), t, f) != Verdict(Draw(tb, t, unused, face), t, f);
    }
  }

  lemma DrawByItself(tb: Tables, t: int, echo: int, face: nat, f: nat)
    ensures Verdict(Draw(tb, t, echo, face), t, f) ==
            Said(FaceElse(ListAt(tb, t), tb.records, f, {echo}) || f == face, AnsweredElse(ListAt(tb, t), tb.records, f, {echo}))
  {
    var ids := ListAt(tb, t);
    RedrawnRecords(ids + [echo], tb.records, echo, face, f);
    assert FaceElse(ids + [echo], tb.records, f, {echo}) <==> FaceElse(ids, tb.records, f, {echo});
    assert AnsweredElse(ids + [echo], tb.records, f, {echo}) <==> AnsweredElse(ids, tb.records, f, {echo});
  }

  /** Exactly when the end of a test changes what another one would conclude: when the verdict rests on ids they share. */
  lemma EndChanges(tb: Tables, t: int, o: int)
    requires o != t
    ensures (exists f: nat :: Verdict(End(tb, o), t, f) != Verdict(tb, t, f)) <==>
            exists x {:trigger x in tb.records} :: x in ListAt(tb, o) && x in ListAt(tb, t) && x in tb.records
                        && RestsOn(ListAt(tb, t), tb.records, x, Ids(ListAt(tb, o)))
  {
    var ids, records, gone, tb' := ListAt(tb, t), tb.records, Ids(ListAt(tb, o)), End(tb, o);
    assert ListAt(tb', t) == ids;
    forall f: nat
      ensures FaceOfSome(ids, tb'.records, f) <==> FaceElse(ids, records, f, gone)
      ensures FaceAnswered(ids, tb'.records, f) <==> AnsweredElse(ids, records, f, gone)
    {
      Left(tb, o, ids, f);
    }
    if f: nat :| Verdict(tb', t, f) != Verdict(tb, t, f) {
      if !FaceElse(ids, records, f, gone) {
        var x :| x in ids && x in records && records[x].face == f;
        assert x in gone && RestsOn(ids, records, x, gone);
      } else {
        var x :| x in ids && x in records && records[x].face == f && records[x].answered;
        assert x in gone && RestsOn(ids, records, x, gone);
      }
    }
    if x :| x in ListAt(tb, o) && x in ids && x in records && RestsOn(ids, records, x, gone) {
      var f := records[x].face;
      assert FaceOfSome(ids, records, f) && (records[x].answered ==> FaceAnswered(ids, records, f));
      assert Verdict(tb', t, f) != Verdict(tb, t, f);
    }
  }

  ghost function Ids(list: seq<int>): set<int> {
    set e | e in list
  }

  lemma Left(tb: Tables, o: int, ids: seq<int>, f: nat)
    ensures FaceOfSome(ids, End(tb, o).records, f) <==> FaceElse(ids, tb.records, f, Ids(ListAt(tb, o)))
    ensures FaceAnswered(ids, End(tb, o).records, f) <==> AnsweredElse(ids, tb.records, f, Ids(ListAt(tb, o)))
  {
    var records', gone := End(tb, o).records, Ids(ListAt(tb, o));
    assert forall e :: e in records' <==> e in tb.records && e !in gone;
    assert forall e :: e in records' ==> records'[e] == tb.records[e];
  }

  // ------------------------------------------------------------------- running by itself

  /** The events without the beginnings, draws and ends of other tests. */
  ghost function ByItself(h: seq<TestEvent>, t: int): seq<TestEvent> {
    if h == [] then []
    else
      var e, r := h[|h| - 1], ByItself(h[..|h| - 1], t);
      if e.Back? || e.test == t then r + [e] else r
  }

  /** The records of the ids in a list. */
  ghost function Own(tb: Tables, t: int): map<int, EchoState> {
    map e | e in tb.records && e in ListAt(tb, t) :: tb.records[e]
  }

  /** The test has the list and the records that it would have if it ran by itself. */
  ghost predicate AsByItself(h: seq<TestEvent>, t: int) {
    var tb, tb' := TablesOf(h), TablesOf(ByItself(h, t));
    ListAt(tb, t) == ListAt(tb', t) && Own(tb, t) == Own(tb', t)
  }

  /** An event of another test that overwrites one of the test's records with something else, or erases one. */
  ghost predicate Disturbs(tb: Tables, t: int, e: TestEvent) {
    match e
    case Begun(_) => false
    case Sent(o, echo, face) => o != t && echo in ListAt(tb, t) && (echo in tb.records ==> tb.records[echo] != EchoState(face, false))
    case Back(_) => false
    case Finished(o) => o != t && exists x {:trigger x in tb.records} :: x in ListAt(tb, o) && x in ListAt(tb, t) && x in tb.records
  }

  ghost predicate NeverDisturbed(h: seq<TestEvent>, t: int) {
    h == [] || (NeverDisturbed(h[..|h| - 1], t) && !Disturbs(TablesOf(h[..|h| - 1]), t, h[|h| - 1]))
  }

  ghost predicate AlwaysAsByItself(h: seq<TestEvent>, t: int) {
    AsByItself(h, t) && (h == [] || AlwaysAsByItself(h[..|h| - 1], t))
  }

  /** Exactly when the event of another test leaves a test its records. */
  lemma OthersStep(tb: Tables, t: int, e: TestEvent)
    requires !e.Back? && e.test != t
    ensures ListAt(Stepped(tb, e), t) == ListAt(tb, t)
    ensures Own(Stepped(tb, e), t) == Own(tb, t) <==> !Disturbs(tb, t, e)
  {
    var tb' := Stepped(tb, e);
    if Disturbs(tb, t, e) {
      var x := if e.Sent? then e.echo else DisturbedId(tb, t, e);
      assert x in ListAt(tb, t);
      assert e.Sent? ==> x in Own(tb', t) && Own(tb', t)[x] == EchoState(e.face, false);
      assert e.Finished? ==> x in Own(tb, t) && x !in Own(tb', t);
    } else {
      forall x ensures x in Own(tb', t) <==> x in Own(tb, t) {}
      forall x | x in Own(tb, t) ensures Own(tb', t)[x] == Own(tb, t)[x] {}
    }
  }

  ghost function DisturbedId(tb: Tables, t: int, e: TestEvent): (x: int)
    requires e.Finished? && Disturbs(tb, t, e)
    ensures x in ListAt(tb, e.test) && x in ListAt(tb, t) && x in tb.records
  {
    var x {:trigger x in tb.records} :| x in ListAt(tb, e.test) && x in ListAt(tb, t) && x in tb.records;
    x
  }

  /** What a test does, and every answer, to the records of its own. */
  ghost function OwnAfter(own: map<int, EchoState>, e: TestEvent): map<int, EchoState> {
    match e
    case Begun(_) => own
    case Sent(_, echo, face) => own[echo := EchoState(face, false)]
    case Back(echo) => if echo in own then own[echo := own[echo].(answered := true)] else own
    case Finished(_) => map[]
  }

  lemma OwnEvent(tb: Tables, t: int, e: TestEvent)
    requires e.Back? || e.test == t
    ensures Own(Stepped(tb, e), t) == OwnAfter(Own(tb, t), e)
    ensures ListAt(Stepped(tb, e), t) == if e.Sent? then ListAt(tb, t) + [e.echo] else if e.Finished? then [] else ListAt(tb, t)
  {
    var a, b := Own(Stepped(tb, e), t), OwnAfter(Own(tb, t), e);
    forall x ensures x in a <==> x in b {}
    forall x | x in a ensures a[x] == b[x] {}
  }

  lemma OwnStep(tb: Tables, tb': Tables, t: int, e: TestEvent)
    requires ListAt(tb, t) == ListAt(tb', t) && Own(tb, t) == Own(tb', t) && (e.Back? || e.test == t)
    ensures ListAt(Stepped(tb, e), t) == ListAt(Stepped(tb', e), t) && Own(Stepped(tb, e), t) == Own(Stepped(tb', e), t)
  {
    OwnEvent(tb, t, e);
    OwnEvent(tb', t, e);
  }

  /**
   * For every run, however ids are drawn: a test has at all times the records that it would have if it ran by itself,
   * exactly if no event of another test disturbs it.
   */
  lemma {:induction false} Undisturbed(h: seq<TestEvent>, t: int)
    ensures AlwaysAsByItself(h, t) <==> NeverDisturbed(h, t)
  {
    if h == [] {
    } else {
      var init, e := h[..|h| - 1], h[|h| - 1];
      Undisturbed(init, t);
      var tb, r := TablesOf(init), ByItself(init, t);
      if e.Back? || e.test == t {
        OneMore(r, e);
        if AsByItself(init, t) {
          OwnStep(tb, TablesOf(r), t, e);
        }
      } else {
        OthersStep(tb, t, e);
      }
    }
  }

  /** What a test concludes depends on its own records alone. */
  lemma SameVerdict(tb: Tables, tb': Tables, t: int, f: nat)
    requires ListAt(tb, t) == ListAt(tb', t) && Own(tb, t) == Own(tb', t)
    ensures Verdict(tb, t, f) == Verdict(tb', t, f)
  {
    forall e ensures e in ListAt(tb, t) && e in tb.records <==> e in ListAt(tb', t) && e in tb'.records {
      assert e in Own(tb, t) <==> e in Own(tb', t);
    }
    forall e | e in ListAt(tb, t) && e in tb.records ensures tb.records[e] == tb'.records[e] {
      assert Own(tb, t)[e] == Own(tb', t)[e];
    }
  }

  lemma AsByItselfNow(h: seq<TestEvent>, t: int)
    requires AlwaysAsByItself(h, t)
    ensures AsByItself(h, t)
  {
  }

  /** So a test that was never disturbed concludes what it would conclude if it ran by itself. */
  lemma UndisturbedVerdict(h: seq<TestEvent>, t: int, f: nat)
    requires NeverDisturbed(h, t)
    ensures Verdict(TablesOf(h), t, f) == Verdict(TablesOf(ByItself(h, t)), t, f)
  {
    Undisturbed(h, t);
    AsByItselfNow(h, t);
    SameVerdict(TablesOf(h), TablesOf(ByItself(h, t)), t, f);
  }

  // -------------------------------------------------------------------- what histories say

  datatype Owner = Nobody | Owner(test: int, face: nat)

  /** The test, not yet finished, that drew an echo id last, and the face it was sent on. */
  ghost function OwnerOf(h: seq<TestEvent>, echo: int): Owner {
    if h == [] then Nobody
    else
      var e, o := h[|h| - 1], OwnerOf(h[..|h| - 1], echo);
      match e
      case Begun(_) => o
      case Sent(t, id, f) => if id == echo then Owner(t, f) else o
      case Back(_) => o
      case Finished(t) => if o.Owner? && o.test == t then Nobody else o
  }

  /** An answer has come since the echo was sent last. */
  ghost predicate Answered(h: seq<TestEvent>, echo: int) {
    h != [] &&
    var e := h[|h| - 1];
    match e
    case Begun(_) => Answered(h[..|h| - 1], echo)
    case Sent(_, id, _) => id != echo && Answered(h[..|h| - 1], echo)
    case Back(id) => id == echo || Answered(h[..|h| - 1], echo)
    case Finished(_) => Answered(h[..|h| - 1], echo)
  }

  /** The test has sent an echo on the face that is its own still. */
  ghost predicate Probed(h: seq<TestEvent>, test: int, face: nat) {
    exists e :: OwnerOf(h, e) == Owner(test, face)
  }

  /** And an answer to one has come. */
  ghost predicate SomeAnswered(h: seq<TestEvent>, test: int, face: nat) {
    exists e :: OwnerOf(h, e) == Owner(test, face) && Answered(h, e)
  }

  /** The records and the lists are those of the echoes that belong to tests, with what has become of them. */
  ghost predicate Right(tb: Tables, h: seq<TestEvent>) {
    && (forall e :: e in tb.records <==> OwnerOf(h, e).Owner?)
    && (forall e :: e in tb.records ==> tb.records[e] == EchoState(OwnerOf(h, e).face, Answered(h, e)))
    && (forall t, e {:trigger e in tb.lists[t]} :: t in tb.lists && e in tb.lists[t] ==> OwnerOf(h, e).Owner? && OwnerOf(h, e).test == t)
    && (forall e :: OwnerOf(h, e).Owner? ==> OwnerOf(h, e).test in tb.lists && e in tb.lists[OwnerOf(h, e).test])
    && (forall t :: t in tb.lists ==> NoDup(tb.lists[t]))
  }

  /** What a finished test finds out, if the tables are right: a face it probed is normal exactly if one of its echoes there was answered. */
  lemma VerdictMeans(tb: Tables, h: seq<TestEvent>, t: int, f: nat)
    requires Right(tb, h)
    ensures Verdict(tb, t, f) == if !Probed(h, t, f) then None else if SomeAnswered(h, t, f) then Some(NormalFace) else Some(FailedFace)
  {
    var ids := ListAt(tb, t);
    forall e ensures e in ids <==> OwnerOf(h, e).Owner? && OwnerOf(h, e).test == t {}
    hide NoDup;
  }

  /** What an event makes of the owners and the answers. */
  ghost predicate Effect(h: seq<TestEvent>, h': seq<TestEvent>, e: TestEvent) {
    forall id :: OwnerOf(h', id) == OwnerAfter(OwnerOf(h, id), e, id) && (Answered(h', id) <==> AnsweredAfter(Answered(h, id), e, id))
  }

  ghost function OwnerAfter(o: Owner, e: TestEvent, echo: int): Owner {
    match e
    case Begun(_) => o
    case Sent(t, id, f) => if id == echo then Owner(t, f) else o
    case Back(_) => o
    case Finished(t) => if o.Owner? && o.test == t then Nobody else o
  }

  ghost predicate AnsweredAfter(answered: bool, e: TestEvent, echo: int) {
    match e
    case Begun(_) => answered
    case Sent(_, id, _) => id != echo && answered
    case Back(id) => id == echo || answered
    case Finished(_) => answered
  }

  lemma EventEffect(h: seq<TestEvent>, e: TestEvent)
    ensures Effect(h, h + [e], e)
  {
    OneMore(h, e);
  }

  lemma DrawFresh(tb: Tables, h: seq<TestEvent>, h': seq<TestEvent>, t: int, echo: int, face: nat)
    requires Right(tb, h) && Effect(h, h', Sent(t, echo, face)) && echo !in tb.records
    ensures Right(Draw(tb, t, echo, face), h')
  {
    hide OwnerOf, Answered;
    var ids := ListAt(tb, t);
    assert echo !in ids;
    assert NoDup(ids + [echo]);
    hide NoDup;
  }

  lemma DrawInUse(tb: Tables, h: seq<TestEvent>, h': seq<TestEvent>, t: int, echo: int, face: nat)
    requires Right(tb, h) && Effect(h, h', Sent(t, echo, face)) && echo in tb.records
    ensures !Right(Draw(tb, t, echo, face), h')
  {
    hide OwnerOf, Answered;
    var tb', o := Draw(tb, t, echo, face), OwnerOf(h, echo).test;
    if o == t {
      var ids := tb.lists[t];
      var i := IndexOf(ids, echo);
      assert (ids + [echo])[i] == (ids + [echo])[|ids|] && tb'.lists[t] == ids + [echo];
    } else {
      assert echo in tb'.lists[o] && OwnerOf(h', echo).test != o;
    }
  }

  /** Exactly when a draw leaves the tables right: if the id is not in use. */
  lemma DrawRight(tb: Tables, h: seq<TestEvent>, t: int, echo: int, face: nat)
    requires Right(tb, h)
    ensures Right(Draw(tb, t, echo, face), h + [Sent(t, echo, face)]) <==> echo !in tb.records
  {
    EventEffect(h, Sent(t, echo, face));
    if echo in tb.records {
      DrawInUse(tb, h, h + [Sent(t, echo, face)], t, echo, face);
    } else {
      DrawFresh(tb, h, h + [Sent(t, echo, face)], t, echo, face);
    }
  }

  lemma AnswerRight(tb: Tables, h: seq<TestEvent>, h': seq<TestEvent>, echo: int)
    requires Right(tb, h) && Effect(h, h', Back(echo))
    ensures Right(Answer(tb, echo), h')
  {
    hide OwnerOf, Answered, NoDup;
  }

  lemma EndRight(tb: Tables, h: seq<TestEvent>, h': seq<TestEvent>, t: int)
    requires Right(tb, h) && Effect(h, h', Finished(t))
    ensures Right(End(tb, t), h')
  {
    hide OwnerOf, Answered, NoDup;
    assert forall id :: id in ListAt(tb, t) <==> OwnerOf(h, id).Owner? && OwnerOf(h, id).test == t;
  }

  lemma BeginRight(tb: Tables, h: seq<TestEvent>, h': seq<TestEvent>, t: int)
    requires Right(tb, h) && Effect(h, h', Begun(t))
    ensures Right(Stepped(tb, Begun(t)), h')
  {
    hide OwnerOf, Answered, NoDup;
    assert NoDup<int>([]) by { NothingTwice<int>(); }
  }

  /** Answers, beginnings and ends leave the tables right. */
  lemma OtherRight(tb: Tables, h: seq<TestEvent>, e: TestEvent)
    requires Right(tb, h) && !e.Sent?
    ensures Right(Stepped(tb, e), h + [e])
  {
    EventEffect(h, e);
    hide Right, Effect;
    match e
    case Begun(t) => BeginRight(tb, h, h + [e], t);
    case Back(echo) => AnswerRight(tb, h, h + [e], echo);
    case Finished(t) => EndRight(tb, h, h + [e], t);
  }

  /** Every id drawn was not in use: there was no record for it. */
  ghost predicate FreshDraws(h: seq<TestEvent>) {
    h == [] || (FreshDraws(h[..|h| - 1]) && (h[|h| - 1].Sent? ==> h[|h| - 1].echo !in TablesOf(h[..|h| - 1]).records))
  }

  ghost predicate AlwaysRight(h: seq<TestEvent>) {
    Right(TablesOf(h), h) && (h == [] || AlwaysRight(h[..|h| - 1]))
  }

  lemma RightNow(h: seq<TestEvent>)
    requires AlwaysRight(h)
    ensures Right(TablesOf(h), h)
  {
  }

  /** For every run: the tables say at all times what the history says, exactly if no id was drawn that was in use. */
  lemma {:induction false} RightExactly(h: seq<TestEvent>)
    ensures AlwaysRight(h) <==> FreshDraws(h)
  {
    if h == [] {
      assert Right(TablesOf(h), h);
    } else {
      var init, e := h[..|h| - 1], h[|h| - 1];
      RightExactly(init);
      assert init + [e] == h;
      if AlwaysRight(init) {
        RightNow(init);
        if e.Sent? {
          DrawRight(TablesOf(init), init, e.test, e.echo, e.face);
        } else {
          OtherRight(TablesOf(init), init, e);
        }
      }
    }
  }

  lemma RightUndisturbed(tb: Tables, h: seq<TestEvent>, t: int, e: TestEvent)
    requires Right(tb, h) && (e.Sent? ==> e.echo !in tb.records)
    ensures !Disturbs(tb, t, e)
  {
    hide NoDup;
  }

  /** Then no test disturbs another one. */
  lemma {:induction false} FreshUndisturbed(h: seq<TestEvent>, t: int)
    requires FreshDraws(h)
    ensures NeverDisturbed(h, t)
  {
    if h == [] {
    } else {
      var init := h[..|h| - 1];
      FreshUndisturbed(init, t);
      RightExactly(init);
      RightNow(init);
      RightUndisturbed(TablesOf(init), init, t, h[|h| - 1]);
    }
  }
}
