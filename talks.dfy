/** Turning the fetched schedule document into the time-ordered list of talks
    the tracker works on. */
module Talks {
  import opened Wrappers
  import Text
  import Rooms
  import StableSort

  /** An instant in Asia/Taipei, in microseconds (the resolution of Python's datetime). */
  type Instant = int

  /** A talk's `code`; None when the entry has no code. All codeless talks
      then share this one value, as they share Python's None. */
  type Code = Option<string>

  /** Titles containing this marker are promotional sessions. */
  const PromoMarker: string := "宣傳議程"

  /** A talk entry's `title` field: JSON null, missing, or a string. */
  datatype Title = Null | Absent | Given(text: string)

  /** The title the filter looks at, `talk.get('title', '')`: a missing title
      reads as "". */
  function FilterTitle(title: Title): string {
    if title.Given? then title.text else ""
  }

  /** The title the talk record carries, `talk.get('title')`, as the message
      renders it: a missing title is None and prints as "None". */
  function ShownTitle(title: Title): string {
    if title.Given? then title.text else "None"
  }

  /** One entry of the document's `talks` list. An absent speaker list reads
      as [], an absent start or abstract as "". */
  datatype RawTalk = RawTalk(
    code: Code,
    title: Title,
    speakers: seq<string>,
    start: string,
    room: Option<int>,
    abstractText: string)

  /** The fetched JSON document: its `talks` and `rooms` lists (None when the
      key is absent) and the names of its other top-level keys. */
  datatype Document = Document(
    talks: Option<seq<RawTalk>>,
    rooms: Option<seq<Rooms.Room>>,
    otherKeys: set<string>)

  /** A normalised talk. */
  datatype Talk = Talk(
    code: Code,
    title: string,
    start: Instant,
    speakers: seq<string>,
    roomId: Option<int>,
    roomName: string,
    abstractText: string)

  /** Python's truth test on the document: a dict with no keys is false. */
  predicate IsEmptyDocument(doc: Document) {
    doc.talks.None? && doc.rooms.None? && doc.otherKeys == {}
  }

  function StartOf(t: Talk): int { t.start }

  /** "break" and "opening", in any letter case, mark non-talk blocks. */
  predicate IsNonTalkTitle(title: string) {
    Text.Lower(title) == "break" || Text.Lower(title) == "opening"
  }

  /** The first filter: non-talk marker, promotional session, or no speakers. */
  predicate IsExcluded(title: string, speakers: seq<string>) {
    IsNonTalkTitle(title) || Text.Contains(title, PromoMarker) || speakers == []
  }

  /** What one entry contributes. `Aborts` is the exception a null title
      raises when it is lower-cased; it is not caught inside the batch. */
  datatype EntryOutcome = Aborts | Skipped | Kept(talk: Talk)

  /** One entry, independently of the others. `parse` stands for the ISO
      parse and the conversion to Taipei time, None when it raises ValueError. */
  function NormalizeEntry(e: RawTalk, rooms: seq<Rooms.Room>, parse: string -> Option<Instant>): (r: EntryOutcome)
    // only a null title raises
    ensures r.Aborts? <==> e.title.Null?
    // an entry is kept exactly when it passes the filters and its start parses
    ensures r.Kept? <==>
      !e.title.Null? && !IsExcluded(FilterTitle(e.title), e.speakers) && e.start != "" && parse(e.start).Some?
    // and the kept talk carries the entry's code, speakers and room, and the parsed start
    ensures r.Kept? ==>
      && r.talk.code == e.code && r.talk.start == parse(e.start).value
      && r.talk.speakers == e.speakers && r.talk.roomId == e.room
      && r.talk.roomName == Rooms.GetRoomName(e.room, rooms)
  {
    if e.title.Null? then Aborts
    else if IsExcluded(FilterTitle(e.title), e.speakers) || e.start == "" then Skipped
    else match parse(e.start)
      case None => Skipped
      case Some(at) =>
        Kept(Talk(e.code, ShownTitle(e.title), at, e.speakers, e.room, Rooms.GetRoomName(e.room, rooms), e.abstractText))
  }

  /** Some entry aborts the whole batch. */
  predicate Aborting(raw: seq<RawTalk>) {
    exists i | 0 <= i < |raw| :: raw[i].title.Null?
  }

  /** What one entry adds to the kept list. */
  function Contribution(e: RawTalk, rooms: seq<Rooms.Room>, parse: string -> Option<Instant>): (r: seq<Talk>)
    ensures forall t :: t in r <==> NormalizeEntry(e, rooms, parse) == Kept(t)
  {
    match NormalizeEntry(e, rooms, parse)
    case Kept(t) => [t]
    case _ => []
  }

  /** The concatenation of `f` over `s`, in order. */
  function Collect<A, B>(s: seq<A>, f: A -> seq<B>): seq<B> {
    if s == [] then [] else Collect(s[..|s| - 1], f) + f(s[|s| - 1])
  }

  lemma {:induction false} CollectAppend<A, B>(a: seq<A>, b: seq<A>, f: A -> seq<B>)
    ensures Collect(a + b, f) == Collect(a, f) + Collect(b, f)
    decreases |b|
  {
    if b == [] {
      assert a + b == a;
    } else {
      var b0 := b[..|b| - 1];
      assert (a + b)[..|a + b| - 1] == a + b0;
      assert (a + b)[|a + b| - 1] == b[|b| - 1];
      CollectAppend(a, b0, f);
    }
  }

  lemma {:induction false} CollectMembers<A, B>(s: seq<A>, f: A -> seq<B>, x: B)
    ensures x in Collect(s, f) <==> exists i | 0 <= i < |s| :: x in f(s[i])
  {
    if s != [] {
      var init := s[..|s| - 1];
      CollectMembers(init, f, x);
      if exists i | 0 <= i < |init| :: x in f(init[i]) {
        var i :| 0 <= i < |init| && x in f(init[i]);
        assert s[i] == init[i];
      }
      if exists i | 0 <= i < |s| :: x in f(s[i]) {
        var i :| 0 <= i < |s| && x in f(s[i]);
        if i < |init| { assert init[i] == s[i]; }
      }
    }
  }

  /** The kept talks, in document order. */
  function KeptTalks(raw: seq<RawTalk>, rooms: seq<Rooms.Room>, parse: string -> Option<Instant>): seq<Talk> {
    Collect(raw, e => Contribution(e, rooms, parse))
  }

  /** The result parse_talks returns for a document: None when it raises. */
  function Normalized(doc: Document, parse: string -> Option<Instant>): (r: Option<seq<Talk>>)
    ensures r.None? <==> Aborting(doc.talks.GetOr([]))
    ensures r.Some? ==> |r.value| <= |doc.talks.GetOr([])|
  {
    var raw := doc.talks.GetOr([]);
    if Aborting(raw) then None
    else
      KeptTalksLength(raw, doc.rooms.GetOr([]), parse);
      Some(StableSort.SortBy(KeptTalks(raw, doc.rooms.GetOr([]), parse), StartOf))
  }

  /** Each entry contributes at most one talk. */
  lemma {:induction false} KeptTalksLength(raw: seq<RawTalk>, rooms: seq<Rooms.Room>, parse: string -> Option<Instant>)
    ensures |KeptTalks(raw, rooms, parse)| <= |raw|
  {
    if raw != [] {
      KeptTalksLength(raw[..|raw| - 1], rooms, parse);
    }
  }

  /** parse_talks: collect the kept entries in a loop, then sort by start time. */
  method ParseTalks(doc: Document, parse: string -> Option<Instant>) returns (r: Option<seq<Talk>>)
    ensures r == Normalized(doc, parse)
  {
    var raw := doc.talks.GetOr([]);
    var rooms := doc.rooms.GetOr([]);
    var talks: seq<Talk> := [];
    var i := 0;
    while i < |raw|
      invariant 0 <= i <= |raw|
      invariant !Aborting(raw[..i])
      invariant talks == KeptTalks(raw[..i], rooms, parse)
    {
      var entry := raw[i];
      KeptTalksNext(raw, rooms, parse, i);
      AbortingNext(raw, i);
      if entry.title.Null? {
        assert Aborting(raw);
        return None;
      }
      var title := FilterTitle(entry.title);
      if IsNonTalkTitle(title) || Text.Contains(title, PromoMarker) || entry.speakers == [] {
        // skipped: not a talk
      } else if entry.start == "" {
        // skipped: no start time
      } else {
        var startTime := parse(entry.start);
        if startTime.Some? {
          var roomName := Rooms.GetRoomName(entry.room, rooms);
          talks := talks + [Talk(entry.code, ShownTitle(entry.title), startTime.value, entry.speakers, entry.room, roomName, entry.abstractText)];
        }
        // a start that does not parse is logged and skipped
      }
      i := i + 1;
    }
    assert raw[..i] == raw;
    r := Some(StableSort.SortBy(talks, StartOf));
  }

  // ---- what a normalised list is ----

  /** The kept talks of one more entry. */
  lemma KeptTalksNext(raw: seq<RawTalk>, rooms: seq<Rooms.Room>, parse: string -> Option<Instant>, i: int)
    requires 0 <= i < |raw|
    ensures KeptTalks(raw[..i + 1], rooms, parse)
         == KeptTalks(raw[..i], rooms, parse) + Contribution(raw[i], rooms, parse)
  {
    assert raw[..i + 1][..i] == raw[..i];
  }

  /** The batch with one more entry aborts when it did already or that entry's
      title is null. */
  lemma AbortingNext(raw: seq<RawTalk>, i: int)
    requires 0 <= i < |raw|
    ensures Aborting(raw[..i + 1]) <==> Aborting(raw[..i]) || raw[i].title.Null?
  {
  }

  lemma KeptTalksAppend(a: seq<RawTalk>, b: seq<RawTalk>, rooms: seq<Rooms.Room>, parse: string -> Option<Instant>)
    ensures KeptTalks(a + b, rooms, parse) == KeptTalks(a, rooms, parse) + KeptTalks(b, rooms, parse)
  {
    CollectAppend(a, b, e => Contribution(e, rooms, parse));
  }

  /** A talk is kept exactly when it is what some entry normalises to. */
  lemma KeptTalksMembers(raw: seq<RawTalk>, rooms: seq<Rooms.Room>, parse: string -> Option<Instant>, t: Talk)
    ensures t in KeptTalks(raw, rooms, parse) <==>
            exists i | 0 <= i < |raw| :: NormalizeEntry(raw[i], rooms, parse) == Kept(t)
  {
    var f := e => Contribution(e, rooms, parse);
    CollectMembers(raw, f, t);
    if exists i | 0 <= i < |raw| :: t in f(raw[i]) {
      var i :| 0 <= i < |raw| && t in f(raw[i]);
      assert NormalizeEntry(raw[i], rooms, parse) == Kept(t);
    }
    if exists i | 0 <= i < |raw| :: NormalizeEntry(raw[i], rooms, parse) == Kept(t) {
      var i :| 0 <= i < |raw| && NormalizeEntry(raw[i], rooms, parse) == Kept(t);
      assert t in f(raw[i]);
    }
  }

  /** A normalised list is None exactly when some entry has a null title;
      otherwise it is ordered by start time, and for every start time the talks
      with that start keep their document order (Python's sort is stable). */
  lemma NormalizedOrdered(doc: Document, parse: string -> Option<Instant>)
    ensures Normalized(doc, parse).None? <==> Aborting(doc.talks.GetOr([]))
    ensures Normalized(doc, parse).Some? ==>
      var talks := Normalized(doc, parse).value;
      var kept := KeptTalks(doc.talks.GetOr([]), doc.rooms.GetOr([]), parse);
      && StableSort.SortedBy(talks, StartOf)
      && multiset(talks) == multiset(kept)
      && forall at :: StableSort.WithKey(talks, StartOf, at) == StableSort.WithKey(kept, StartOf, at)
  {
    var kept := KeptTalks(doc.talks.GetOr([]), doc.rooms.GetOr([]), parse);
    StableSort.SortBySorted(kept, StartOf);
    forall at ensures StableSort.WithKey(StableSort.SortBy(kept, StartOf), StartOf, at) == StableSort.WithKey(kept, StartOf, at) {
      StableSort.SortByStable(kept, StartOf, at);
    }
  }

  /** Exactly the qualifying entries come out: a talk is in the list if and
      only if some entry of the document normalises to it. */
  lemma NormalizedMembers(doc: Document, parse: string -> Option<Instant>, t: Talk)
    requires Normalized(doc, parse).Some?
    ensures t in Normalized(doc, parse).value <==>
      exists i | 0 <= i < |doc.talks.GetOr([])| ::
        NormalizeEntry(doc.talks.GetOr([])[i], doc.rooms.GetOr([]), parse) == Kept(t)
  {
    var kept := KeptTalks(doc.talks.GetOr([]), doc.rooms.GetOr([]), parse);
    StableSort.SortBySorted(kept, StartOf);
    assert t in Normalized(doc, parse).value <==> t in multiset(kept);
    KeptTalksMembers(doc.talks.GetOr([]), doc.rooms.GetOr([]), parse, t);
  }

  /** No break, opening or promotional session, and no talk without speakers,
      is ever notified. */
  lemma NormalizedExcludesNonTalks(doc: Document, parse: string -> Option<Instant>, t: Talk)
    requires Normalized(doc, parse).Some?
    requires t in Normalized(doc, parse).value
    ensures Text.Lower(t.title) != "break" && Text.Lower(t.title) != "opening"
    ensures !Text.Contains(t.title, PromoMarker)
    ensures t.speakers != []
  {
    NormalizedMembers(doc, parse, t);
  }

  /** A qualifying entry whose start parses does appear in the list. */
  lemma NormalizedKeepsQualifying(doc: Document, parse: string -> Option<Instant>, i: int)
    requires Normalized(doc, parse).Some?
    requires 0 <= i < |doc.talks.GetOr([])|
    requires var e := doc.talks.GetOr([])[i];
      !e.title.Null? && !IsExcluded(FilterTitle(e.title), e.speakers) && e.start != "" && parse(e.start).Some?
    ensures var e := doc.talks.GetOr([])[i];
      Talk(e.code, ShownTitle(e.title), parse(e.start).value, e.speakers, e.room,
           Rooms.GetRoomName(e.room, doc.rooms.GetOr([])), e.abstractText) in Normalized(doc, parse).value
  {
    var e := doc.talks.GetOr([])[i];
    var t := Talk(e.code, ShownTitle(e.title), parse(e.start).value, e.speakers, e.room,
                  Rooms.GetRoomName(e.room, doc.rooms.GetOr([])), e.abstractText);
    assert NormalizeEntry(e, doc.rooms.GetOr([]), parse) == Kept(t);
    NormalizedMembers(doc, parse, t);
  }

  /** A skipped entry, in particular one whose start does not parse, does not
      affect the outcome: the document without it normalises to the same list. */
  lemma SkippedEntryIrrelevant(talks: seq<RawTalk>, rooms: Option<seq<Rooms.Room>>, otherKeys: set<string>,
                               parse: string -> Option<Instant>, i: int)
    requires 0 <= i < |talks|
    requires NormalizeEntry(talks[i], rooms.GetOr([]), parse) == Skipped
    ensures Normalized(Document(Some(talks[..i] + talks[i + 1..]), rooms, otherKeys), parse)
         == Normalized(Document(Some(talks), rooms, otherKeys), parse)
  {
    KeptTalksRemoveSkipped(talks, rooms.GetOr([]), parse, i);
    AbortingRemove(talks, i);
  }

  lemma KeptTalksRemoveSkipped(talks: seq<RawTalk>, rooms: seq<Rooms.Room>, parse: string -> Option<Instant>, i: int)
    requires 0 <= i < |talks|
    requires NormalizeEntry(talks[i], rooms, parse) == Skipped
    ensures KeptTalks(talks[..i] + talks[i + 1..], rooms, parse) == KeptTalks(talks, rooms, parse)
  {
    var a, e, b := talks[..i], [talks[i]], talks[i + 1..];
    assert talks == (a + e) + b;
    calc {
      KeptTalks(talks, rooms, parse);
      { KeptTalksAppend(a + e, b, rooms, parse); }
      KeptTalks(a + e, rooms, parse) + KeptTalks(b, rooms, parse);
      { KeptTalksSkipped(a, talks[i], rooms, parse); }
      KeptTalks(a, rooms, parse) + KeptTalks(b, rooms, parse);
      { KeptTalksAppend(a, b, rooms, parse); }
      KeptTalks(a + b, rooms, parse);
    }
  }

  lemma KeptTalksSkipped(a: seq<RawTalk>, e: RawTalk, rooms: seq<Rooms.Room>, parse: string -> Option<Instant>)
    requires NormalizeEntry(e, rooms, parse) == Skipped
    ensures KeptTalks(a + [e], rooms, parse) == KeptTalks(a, rooms, parse)
  {
    assert (a + [e])[..|a|] == a;
    assert Contribution(e, rooms, parse) == [];
  }


  lemma AbortingRemove(talks: seq<RawTalk>, i: int)
    requires 0 <= i < |talks| && !talks[i].title.Null?
    ensures Aborting(talks[..i] + talks[i + 1..]) <==> Aborting(talks)
  {
    var rest := talks[..i] + talks[i + 1..];
    if Aborting(rest) {
      var k :| 0 <= k < |rest| && rest[k].title.Null?;
      if k < i { assert talks[k] == rest[k]; } else { assert talks[k + 1] == rest[k]; }
    }
    if Aborting(talks) {
      var k :| 0 <= k < |talks| && talks[k].title.Null?;
      if k < i { assert rest[k] == talks[k]; } else { assert rest[k - 1] == talks[k]; }
    }
  }


  /** An entry without a `title` key passes the title filters as "" and, when
      kept, carries the text "None", which is what its message shows. */
  lemma AbsentTitleKept(e: RawTalk, rooms: seq<Rooms.Room>, parse: string -> Option<Instant>)
    requires e.title.Absent? && e.speakers != [] && e.start != "" && parse(e.start).Some?
    ensures NormalizeEntry(e, rooms, parse).Kept?
    ensures NormalizeEntry(e, rooms, parse).talk.title == "None"
  {
  }

  /** An entry whose start does not parse is skipped, not fatal. */
  lemma BadStartSkipped(e: RawTalk, rooms: seq<Rooms.Room>, parse: string -> Option<Instant>)
    requires !e.title.Null? && parse(e.start).None?
    ensures NormalizeEntry(e, rooms, parse) == Skipped
  {
  }
}
