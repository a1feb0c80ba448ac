/** Drafts the mobile composer builds by typing, erasing and picking anywhere, and what they are sent as. */
module MentionDrafts {
  import opened Basics
  import opened Mentions

  /*** The form of a draft ***/

  // A mention with the text typed before it.
  datatype Segment = Segment(before: string, marker: Marker)

  // What the input holds, and the markers in the order they were picked. The source keeps the
  // text and the markers only; the segments say which mentions stand in the text.
  datatype Draft = Draft(segments: seq<Segment>, tail: string, markers: seq<Marker>)

  const EMPTY := Draft([], [], [])

  function TypedForm(s: Segment): string {
    s.before + MentionText(s.marker)
  }

  function Composed(segments: seq<Segment>): string {
    if segments == [] then [] else TypedForm(segments[0]) + Composed(segments[1..])
  }

  function Text(d: Draft): string {
    Composed(d.segments) + d.tail
  }

  function MarkersOf(segments: seq<Segment>): seq<Marker> {
    Map((s: Segment) => s.marker, segments)
  }

  // Nothing typed holds a sentinel, and every mention in the text has its marker.
  ghost predicate Valid(d: Draft) {
    && CleanParts(d.segments) && SENTINEL !in d.tail
    && multiset(MarkersOf(d.segments)) <= multiset(d.markers)
  }

  predicate Spaceless(name: string) {
    forall c :: c in name ==> !IsSpace(c)
  }

  /*** What it is sent as ***/

  // The mentions rendered, in text order, as links to the given markers.
  function SentAs(segments: seq<Segment>, markers: seq<Marker>): string {
    if segments == [] || markers == [] then []
    else segments[0].before + LinkText(markers[0]) + " " + SentAs(segments[1..], markers[1..])
  }

  // No mention in the text has a name with whitespace, and the markers name the mentions in the
  // order of the text.
  ghost predicate Agrees(d: Draft) {
    (forall i :: 0 <= i < |d.segments| ==> Spaceless(d.segments[i].marker.name))
    && Names(d.markers) == Names(MarkersOf(d.segments))
  }

  // Names without whitespace are read back whole: the trailing space ends the word.
  lemma {:induction false} WordOfName(name: string, rest: string)
    requires Spaceless(name)
    requires rest == [] || IsSpace(rest[0])
    ensures Word(name + rest) == name
  {
    if name == [] {
      assert name + rest == rest;
    } else {
      assert name == [name[0]] + name[1..];
      assert (name + rest)[0] == name[0] && (name + rest)[1..] == name[1..] + rest;
      WordOfName(name[1..], rest);
    }
  }

  lemma Regroup(a: string, b: string, c: string)
    ensures (a + b) + c == a + (b + c)
  {
  }

  // How a mention and what follows it split.
  lemma MentionSplits(name: string, more: string)
    ensures var run := ([SENTINEL] + "@" + name + " ") + more;
      |run| > 1 && run[0] == SENTINEL && run[1] == '@' && run[2..] == name + (" " + more) && run[2 + |name|..] == " " + more
  {
    var run := ([SENTINEL] + "@" + name + " ") + more;
    assert run == ([SENTINEL] + "@") + (name + (" " + more));
    assert run[2..] == name + (" " + more);
    assert run[2 + |name|..] == (name + (" " + more))[|name|..];
  }

  // The scanner reads the name of a mention and pairs it with the next marker, or gives up.
  lemma ScanMention(m: Marker, more: string, markers: seq<Marker>)
    requires Spaceless(m.name)
    ensures Rest(MentionText(m) + more, markers) ==
      if markers == [] || markers[0].name != m.name then None
      else Prefixed(LinkText(markers[0]) + " ", Rest(more, markers[1..]))
  {
    SentinelIsNoSpace();
    MentionSplits(m.name, more);
    WordOfName(m.name, " " + more);
    RestAfterMention(MentionText(m) + more, markers);
    if markers != [] {
      RestAfterPlain(" ", more, markers[1..]);
      PrefixedTwice(LinkText(markers[0]), " ", Rest(more, markers[1..]));
    }
  }

  lemma ScanSegment(s: Segment, more: string, markers: seq<Marker>)
    requires SENTINEL !in s.before && Spaceless(s.marker.name)
    ensures Rest(TypedForm(s) + more, markers) ==
      if markers == [] || markers[0].name != s.marker.name then None
      else Prefixed(s.before + LinkText(markers[0]) + " ", Rest(more, markers[1..]))
  {
    Regroup(s.before, MentionText(s.marker), more);
    RestAfterPlain(s.before, MentionText(s.marker) + more, markers);
    ScanMention(s.marker, more, markers);
    if markers != [] {
      PrefixedTwice(s.before, LinkText(markers[0]) + " ", Rest(more, markers[1..]));
      Regroup(s.before, LinkText(markers[0]), " ");
    }
  }

  lemma NamesFront(markers: seq<Marker>, segments: seq<Segment>)
    requires segments != []
    ensures Names(markers) == Names(MarkersOf(segments)) <==>
      markers != [] && markers[0].name == segments[0].marker.name && Names(markers[1..]) == Names(MarkersOf(segments[1..]))
  {
    var a, b := Names(markers), Names(MarkersOf(segments));
    assert b == [segments[0].marker.name] + Names(MarkersOf(segments[1..]));
    if markers != [] {
      assert a == [markers[0].name] + Names(markers[1..]);
      assert a[1..] == Names(markers[1..]) && b[1..] == Names(MarkersOf(segments[1..]));
    }
  }

  // Whatever the markers: the scan of a composed text links all the mentions if the markers name
  // them in order, and none otherwise.
  lemma {:induction false} ScanComposed(segments: seq<Segment>, tail: string, markers: seq<Marker>)
    requires forall i :: 0 <= i < |segments| ==> SENTINEL !in segments[i].before && Spaceless(segments[i].marker.name)
    requires SENTINEL !in tail
    ensures Rest(Composed(segments) + tail, markers) ==
      if Names(markers) == Names(MarkersOf(segments)) then Some(SentAs(segments, markers) + tail) else None
  {
    if segments == [] {
      ScanTail(tail, markers);
    } else {
      var s, more := segments[0], segments[1..];
      Regroup(TypedForm(s), Composed(more), tail);
      ScanSegment(s, Composed(more) + tail, markers);
      NamesFront(markers, segments);
      if markers != [] {
        ScanComposed(more, tail, markers[1..]);
        Regroup(s.before + LinkText(markers[0]) + " ", SentAs(more, markers[1..]), tail);
      }
    }
  }

  lemma ScanTail(tail: string, markers: seq<Marker>)
    requires SENTINEL !in tail
    ensures Rest([] + tail, markers) == if Names(markers) == [] then Some([] + tail) else None
  {
    assert [] + tail == tail + [];
    RestAfterPlain(tail, [], markers);
    assert Rest([], markers) == if Names(markers) == [] then Some([]) else None;
  }

  lemma {:induction false} WordsHoldNoSpace(text: string)
    ensures forall w :: w in Words(Runs(text)) ==> Spaceless(w)
    decreases |text|
  {
    if text != [] {
      WordsHoldNoSpace(text[1..]);
      if text[0] == SENTINEL && |text| > 1 && text[1] == '@' {
        var w := Word(text[2..]);
        WordsHoldNoSpace(text[2 + |w|..]);
        assert Words(Runs(text)) == [w] + Words(Runs(text[2 + |w|..]));
      }
    }
  }

  // No word the scanner reads is a name with whitespace, so one such marker turns every link off.
  lemma SpaceUnlinksAll(text: string, markers: seq<Marker>, m: Marker)
    requires m in markers && !Spaceless(m.name)
    ensures Serialized(text, markers) == Strip(text)
  {
    WordsHoldNoSpace(text);
    var i :| 0 <= i < |markers| && markers[i] == m;
    assert Names(markers)[i] == m.name;
    assert Words(Runs(text)) != Names(markers);
  }

  // A draft is sent with every mention linked exactly if no name holds whitespace and the markers
  // name the mentions in the order of the text; otherwise with none.
  lemma SendsIff(d: Draft)
    requires Valid(d)
    ensures Serialized(Text(d), d.markers) ==
      if Agrees(d) then SentAs(d.segments, d.markers) + d.tail else Strip(Text(d))
  {
    if i :| 0 <= i < |d.segments| && !Spaceless(d.segments[i].marker.name) {
      var m := d.segments[i].marker;
      assert MarkersOf(d.segments)[i] == m;
      assert m in multiset(MarkersOf(d.segments));
      SpaceUnlinksAll(Text(d), d.markers, m);
    } else {
      ScanComposed(d.segments, d.tail, d.markers);
    }
  }

  /*** Edits ***/

  // The typed parts of a draft are numbered in text order, the last is the tail.
  function Part(d: Draft, n: nat): string
    requires n <= |d.segments|
  {
    if n < |d.segments| then d.segments[n].before else d.tail
  }

  function WithPart(d: Draft, n: nat, s: string): Draft
    requires n <= |d.segments|
  {
    if n < |d.segments| then d.(segments := d.segments[n := Segment(s, d.segments[n].marker)]) else d.(tail := s)
  }

  // Where the part begins in the text.
  function Offset(d: Draft, n: nat): nat
    requires n <= |d.segments|
  {
    |Composed(d.segments[..n])|
  }

  // Typing and erasing within a typed part; erasing a mention, which leaves its marker; picking a
  // suggestion for the token that ends at a cursor within a typed part.
  datatype Edit =
    | Type(n: nat, at: nat, s: string)
    | Erase(n: nat, from: nat, to: nat)
    | Drop(n: nat)
    | Pick(n: nat, at: nat, m: Marker)

  predicate Enabled(d: Draft, e: Edit) {
    if e.Drop? then e.n < |d.segments|
    else
      && e.n <= |d.segments|
      && (e.Type? ==> e.at <= |Part(d, e.n)| && SENTINEL !in e.s)
      && (e.Erase? ==> e.from <= e.to <= |Part(d, e.n)|)
      && (e.Pick? ==> e.at <= |Part(d, e.n)|)
  }

  // The draft after picking `m` for the token from `from` to `at` of part `n`.
  function Picked(d: Draft, n: nat, from: nat, at: nat, m: Marker): Draft
    requires n <= |d.segments| && from <= at <= |Part(d, n)|
  {
    var part := Part(d, n);
    var s := Segment(part[..from], m);
    if n < |d.segments| then
      Draft(d.segments[..n] + [s, Segment(part[at..], d.segments[n].marker)] + d.segments[n + 1..], d.tail, d.markers + [m])
    else Draft(d.segments + [s], part[at..], d.markers + [m])
  }

  // The text without mention `n`.
  function Dropped(d: Draft, n: nat): Draft
    requires n < |d.segments|
  {
    var typed := d.segments[n].before;
    if n + 1 < |d.segments| then
      var next := d.segments[n + 1];
      d.(segments := d.segments[..n] + [Segment(typed + next.before, next.marker)] + d.segments[n + 2..])
    else d.(segments := d.segments[..n], tail := typed + d.tail)
  }

  ghost predicate EditStep(d: Draft, e: Edit, d': Draft) {
    Enabled(d, e) &&
    match e
    case Type(n, at, s) => d' == WithPart(d, n, Part(d, n)[..at] + s + Part(d, n)[at..])
    case Erase(n, from, to) => d' == WithPart(d, n, Part(d, n)[..from] + Part(d, n)[to..])
    case Drop(n) => d' == Dropped(d, n)
    case Pick(n, at, m) =>
      exists from :: 0 <= from <= at && IsToken(Text(d), Offset(d, n) + at, Offset(d, n) + from) && d' == Picked(d, n, from, at, m)
  }

  /*** A pick is the text operation ***/

  lemma {:induction false} ComposedAppend(a: seq<Segment>, b: seq<Segment>)
    ensures Composed(a + b) == Composed(a) + Composed(b)
  {
    if a == [] {
      assert a + b == b;
    } else {
      assert (a + b)[0] == a[0] && (a + b)[1..] == a[1..] + b;
      ComposedAppend(a[1..], b);
    }
  }

  // The text around part `n`: what comes before it, and what after.
  function After(d: Draft, n: nat): string
    requires n <= |d.segments|
  {
    if n < |d.segments| then MentionText(d.segments[n].marker) + (Composed(d.segments[n + 1..]) + d.tail) else []
  }

  lemma TextAround(d: Draft, n: nat)
    requires n <= |d.segments|
    ensures Text(d) == Composed(d.segments[..n]) + (Part(d, n) + After(d, n))
  {
    if n < |d.segments| {
      var s, more := d.segments[n], d.segments[n + 1..];
      assert d.segments == d.segments[..n] + d.segments[n..] && d.segments[n..][1..] == more;
      ComposedAppend(d.segments[..n], d.segments[n..]);
      Regroup(Composed(d.segments[..n]), Composed(d.segments[n..]), d.tail);
      Regroup(TypedForm(s), Composed(more), d.tail);
      Regroup(s.before, MentionText(s.marker), Composed(more) + d.tail);
    } else {
      assert d.segments[..n] == d.segments;
      assert d.tail + [] == d.tail;
    }
  }

  lemma {:induction false} ComposedEndsInSpace(segments: seq<Segment>)
    requires segments != []
    ensures Composed(segments) != [] && Composed(segments)[|Composed(segments)| - 1] == ' '
  {
    if |segments| == 1 {
      assert segments[1..] == [];
      assert Composed(segments) == TypedForm(segments[0]) + [];
    } else {
      ComposedEndsInSpace(segments[1..]);
    }
  }

  // A token that ends within a typed part begins there too: the mention before it ends in a space.
  lemma TokenIsInPart(d: Draft, n: nat, at: nat, start: nat)
    requires n <= |d.segments| && at <= |Part(d, n)| && IsToken(Text(d), Offset(d, n) + at, start)
    ensures Offset(d, n) <= start
  {
    var base := Composed(d.segments[..n]);
    TextAround(d, n);
    if start < |base| {
      ComposedEndsInSpace(d.segments[..n]);
      assert Text(d)[|base| - 1] == ' ';
      SentinelIsNoSpace();
      assert false;
    }
  }

  lemma {:induction false} TextSlices(a: string, p: string, z: string, from: nat, at: nat)
    requires from <= at <= |p|
    ensures (a + (p + z))[..|a| + from] == a + p[..from]
    ensures (a + (p + z))[|a| + at..] == p[at..] + z
  {
    var t := a + (p + z);
    assert t == (a + p[..from]) + (p[from..] + z);
    assert t == (a + p[..at]) + (p[at..] + z);
  }

  // The parts of a draft after a pick.
  lemma PickedText(d: Draft, n: nat, from: nat, at: nat, m: Marker)
    requires n <= |d.segments| && from <= at <= |Part(d, n)|
    ensures Text(Picked(d, n, from, at, m))
         == (Composed(d.segments[..n]) + Part(d, n)[..from]) + MentionText(m) + (Part(d, n)[at..] + After(d, n))
  {
    var d' := Picked(d, n, from, at, m);
    var part := Part(d, n);
    TextAround(d', n);
    assert d'.segments[..n] == d.segments[..n] && Part(d', n) == part[..from];
    if n < |d.segments| {
      var rest := d'.segments[n + 1..];
      assert rest == [Segment(part[at..], d.segments[n].marker)] + d.segments[n + 1..];
      assert rest[1..] == d.segments[n + 1..];
      Regroup(TypedForm(rest[0]), Composed(rest[1..]), d.tail);
      Regroup(part[at..], MentionText(d.segments[n].marker), Composed(d.segments[n + 1..]) + d.tail);
    } else {
      assert d'.segments[n + 1..] == [];
      assert Composed([]) + part[at..] == part[at..] + [];
    }
    Regroup(Composed(d.segments[..n]), part[..from], MentionText(m) + (part[at..] + After(d, n)));
    Regroup(Composed(d.segments[..n]) + part[..from], MentionText(m), part[at..] + After(d, n));
  }

  // Picking replaces the token in the text by the completed mention, and pushes the marker.
  lemma PickIsInsert(d: Draft, n: nat, from: nat, at: nat, m: Marker)
    requires n <= |d.segments| && from < at <= |Part(d, n)|
    ensures var start := Offset(d, n) + from;
      && start + 1 + (at - from - 1) <= |Text(d)|
      && Text(Picked(d, n, from, at, m)) == InsertMention(Text(d), start, at - from - 1, m).0
      && Picked(d, n, from, at, m).markers == d.markers + [m]
  {
    TextAround(d, n);
    TextSlices(Composed(d.segments[..n]), Part(d, n), After(d, n), from, at);
    PickedText(d, n, from, at, m);
  }

  /*** Every run of edits ***/

  // Every part typed without a sentinel.
  ghost predicate CleanParts(segments: seq<Segment>) {
    forall i :: 0 <= i < |segments| ==> SENTINEL !in segments[i].before
  }

  lemma BagAround(ms: seq<Marker>, n: nat, middle: seq<Marker>, k: nat)
    requires n + k <= |ms|
    ensures multiset(ms[..n] + middle + ms[n + k..]) == multiset(ms) - multiset(ms[n..n + k]) + multiset(middle)
  {
    assert ms == ms[..n] + ms[n..n + k] + ms[n + k..];
    assert multiset(ms) == multiset(ms[..n]) + multiset(ms[n..n + k]) + multiset(ms[n + k..]);
  }

  // Replacing `k` segments from the `n`-th.
  function Spliced(segments: seq<Segment>, n: nat, k: nat, middle: seq<Segment>): seq<Segment>
    requires n + k <= |segments|
  {
    segments[..n] + middle + segments[n + k..]
  }

  lemma SplicedMarkers(segments: seq<Segment>, n: nat, k: nat, middle: seq<Segment>)
    requires n + k <= |segments|
    ensures MarkersOf(Spliced(segments, n, k, middle)) == MarkersOf(segments)[..n] + MarkersOf(middle) + MarkersOf(segments)[n + k..]
    ensures CleanParts(segments) && CleanParts(middle) ==> CleanParts(Spliced(segments, n, k, middle))
  {
  }

  lemma SplicedBag(segments: seq<Segment>, n: nat, k: nat, middle: seq<Segment>)
    requires n + k <= |segments|
    ensures multiset(MarkersOf(Spliced(segments, n, k, middle)))
         == multiset(MarkersOf(segments)) - multiset(MarkersOf(segments)[n..n + k]) + multiset(MarkersOf(middle))
  {
    SplicedMarkers(segments, n, k, middle);
    BagAround(MarkersOf(segments), n, MarkersOf(middle), k);
  }

  lemma TwoMarkers(s: Segment, t: Segment)
    ensures multiset(MarkersOf([s, t])) == multiset{s.marker, t.marker}
    ensures MarkersOf([s]) == [s.marker] && multiset([s.marker]) == multiset{s.marker}
  {
    assert MarkersOf([s, t]) == [s.marker, t.marker];
  }

  lemma PickInsideKeepsValid(d: Draft, n: nat, from: nat, at: nat, m: Marker)
    requires Valid(d) && n < |d.segments| && from <= at <= |Part(d, n)|
    ensures Valid(Picked(d, n, from, at, m))
  {
    var part, ms := Part(d, n), MarkersOf(d.segments);
    var s, t := Segment(part[..from], m), Segment(part[at..], d.segments[n].marker);
    assert SENTINEL !in part && CleanParts([s, t]);
    assert Picked(d, n, from, at, m).segments == Spliced(d.segments, n, 1, [s, t]);
    SplicedMarkers(d.segments, n, 1, [s, t]);
    SplicedBag(d.segments, n, 1, [s, t]);
    TwoMarkers(s, t);
    assert ms[n..n + 1] == [d.segments[n].marker];
  }

  lemma PickAtEndKeepsValid(d: Draft, from: nat, at: nat, m: Marker)
    requires Valid(d) && from <= at <= |d.tail|
    ensures Valid(Picked(d, |d.segments|, from, at, m))
    ensures MarkersOf(Picked(d, |d.segments|, from, at, m).segments) == MarkersOf(d.segments) + [m]
  {
    var s := Segment(d.tail[..from], m);
    assert SENTINEL !in s.before && SENTINEL !in d.tail[at..];
    MarkersPush(d.segments, s);
    assert multiset(MarkersOf(d.segments) + [m]) == multiset(MarkersOf(d.segments)) + multiset{m};
    assert multiset(d.markers + [m]) == multiset(d.markers) + multiset{m};
  }

  lemma MarkersPush(segments: seq<Segment>, s: Segment)
    ensures MarkersOf(segments + [s]) == MarkersOf(segments) + [s.marker]
    ensures CleanParts(segments) && SENTINEL !in s.before ==> CleanParts(segments + [s])
  {
  }

  lemma PickKeepsValid(d: Draft, n: nat, from: nat, at: nat, m: Marker)
    requires Valid(d) && n <= |d.segments| && from <= at <= |Part(d, n)|
    ensures Valid(Picked(d, n, from, at, m))
  {
    if n < |d.segments| {
      PickInsideKeepsValid(d, n, from, at, m);
    } else {
      PickAtEndKeepsValid(d, from, at, m);
    }
  }

  lemma DropInsideKeepsValid(d: Draft, n: nat)
    requires Valid(d) && n + 1 < |d.segments|
    ensures Valid(Dropped(d, n))
  {
    var ms, next := MarkersOf(d.segments), d.segments[n + 1];
    var joined := Segment(d.segments[n].before + next.before, next.marker);
    assert CleanParts([joined]);
    assert Dropped(d, n).segments == Spliced(d.segments, n, 2, [joined]);
    SplicedMarkers(d.segments, n, 2, [joined]);
    SplicedBag(d.segments, n, 2, [joined]);
    TwoMarkers(joined, joined);
    assert ms[n..n + 2] == [ms[n], next.marker];
    assert multiset(MarkersOf(Dropped(d, n).segments)) <= multiset(ms);
  }

  lemma DropLastKeepsValid(d: Draft, n: nat)
    requires Valid(d) && n + 1 == |d.segments|
    ensures Valid(Dropped(d, n))
  {
    assert SENTINEL !in d.segments[n].before;
    assert Dropped(d, n).segments == Spliced(d.segments, n, 1, []);
    SplicedMarkers(d.segments, n, 1, []);
    SplicedBag(d.segments, n, 1, []);
  }

  lemma DropKeepsValid(d: Draft, n: nat)
    requires Valid(d) && n < |d.segments|
    ensures Valid(Dropped(d, n))
  {
    if n + 1 < |d.segments| {
      DropInsideKeepsValid(d, n);
    } else {
      DropLastKeepsValid(d, n);
    }
  }

  lemma PartKeepsValid(d: Draft, n: nat, s: string)
    requires Valid(d) && n <= |d.segments| && SENTINEL !in s
    ensures Valid(WithPart(d, n, s))
  {
    assert MarkersOf(WithPart(d, n, s).segments) == MarkersOf(d.segments);
  }

  // Replacing what is typed from `from` to `to` of a part.
  lemma TypeKeepsValid(d: Draft, n: nat, from: nat, to: nat, s: string)
    requires Valid(d) && n <= |d.segments| && from <= to <= |Part(d, n)| && SENTINEL !in s
    ensures Valid(WithPart(d, n, Part(d, n)[..from] + s + Part(d, n)[to..]))
  {
    var part := Part(d, n);
    assert SENTINEL !in part && SENTINEL !in part[..from] && SENTINEL !in part[to..];
    PartKeepsValid(d, n, part[..from] + s + part[to..]);
  }

  lemma EraseKeepsValid(d: Draft, n: nat, from: nat, to: nat)
    requires Valid(d) && n <= |d.segments| && from <= to <= |Part(d, n)|
    ensures Valid(WithPart(d, n, Part(d, n)[..from] + Part(d, n)[to..]))
  {
    TypeKeepsValid(d, n, from, to, []);
    assert Part(d, n)[..from] + [] == Part(d, n)[..from];
  }

  lemma PickStepKeepsValid(d: Draft, n: nat, at: nat, m: Marker, d': Draft)
    requires Valid(d) && EditStep(d, Pick(n, at, m), d')
    ensures Valid(d')
  {
    var from :| 0 <= from <= at && IsToken(Text(d), Offset(d, n) + at, Offset(d, n) + from) && d' == Picked(d, n, from, at, m);
    PickKeepsValid(d, n, from, at, m);
  }

  lemma EditKeepsValid(d: Draft, e: Edit, d': Draft)
    requires Valid(d) && EditStep(d, e, d')
    ensures Valid(d')
  {
    match e {
      case Type(n, at, s) => TypeKeepsValid(d, n, at, at, s);
      case Erase(n, from, to) => EraseKeepsValid(d, n, from, to);
      case Drop(n) => DropKeepsValid(d, n);
      case Pick(n, at, m) => PickStepKeepsValid(d, n, at, m, d');
    }
  }

  ghost predicate IsEditRun(drafts: seq<Draft>, edits: seq<Edit>) {
    |drafts| == |edits| + 1 && drafts[0] == EMPTY
    && forall i :: 0 <= i < |edits| ==> EditStep(drafts[i], edits[i], drafts[i + 1])
  }

  lemma {:induction false} RunsStayValid(drafts: seq<Draft>, edits: seq<Edit>, n: nat)
    requires IsEditRun(drafts, edits) && n <= |edits|
    ensures Valid(drafts[n])
  {
    if n > 0 {
      RunsStayValid(drafts, edits, n - 1);
      EditKeepsValid(drafts[n - 1], edits[n - 1], drafts[n]);
    }
  }

  // Whatever is typed, erased and picked, anywhere outside the mentions: the draft is sent with
  // every mention linked exactly if no picked name still there holds whitespace and the markers,
  // in the order they were picked, name the mentions in the order of the text.
  lemma ComposedDraftsSendIff(drafts: seq<Draft>, edits: seq<Edit>)
    requires IsEditRun(drafts, edits)
    ensures var d := drafts[|edits|];
      Serialized(Text(d), d.markers) == if Agrees(d) then SentAs(d.segments, d.markers) + d.tail else Strip(Text(d))
  {
    RunsStayValid(drafts, edits, |edits|);
    SendsIff(drafts[|edits|]);
  }

  // Picks at the end of the draft only, and no mention erased.
  predicate InOrder(d: Draft, e: Edit) {
    !e.Drop? && (e.Pick? ==> e.n == |d.segments|)
  }

  lemma {:induction false} InOrderPicksAgree(drafts: seq<Draft>, edits: seq<Edit>, n: nat)
    requires IsEditRun(drafts, edits) && n <= |edits|
    requires forall i :: 0 <= i < n ==> InOrder(drafts[i], edits[i])
    ensures drafts[n].markers == MarkersOf(drafts[n].segments)
  {
    if n > 0 {
      InOrderPicksAgree(drafts, edits, n - 1);
      assert EditStep(drafts[n - 1], edits[n - 1], drafts[n]) && InOrder(drafts[n - 1], edits[n - 1]);
    }
  }

  // Then every mention is linked to what was picked, exactly if no name holds whitespace.
  lemma InOrderDraftsSendIff(drafts: seq<Draft>, edits: seq<Edit>)
    requires IsEditRun(drafts, edits) && forall i :: 0 <= i < |edits| ==> InOrder(drafts[i], edits[i])
    ensures var d := drafts[|edits|];
      Serialized(Text(d), d.markers) ==
        if forall m :: m in d.markers ==> Spaceless(m.name) then SentAs(d.segments, MarkersOf(d.segments)) + d.tail
        else Strip(Text(d))
  {
    var d := drafts[|edits|];
    InOrderPicksAgree(drafts, edits, |edits|);
    ComposedDraftsSendIff(drafts, edits);
    forall i | 0 <= i < |d.segments| ensures d.segments[i].marker in d.markers {
      assert d.markers[i] == d.segments[i].marker;
    }
    forall m | m in d.markers ensures exists i :: 0 <= i < |d.segments| && d.segments[i].marker == m {
      var i :| 0 <= i < |d.markers| && d.markers[i] == m;
    }
  }

  /*** How it fails ***/

  lemma StripMarked(plain: string)
    requires SENTINEL !in plain
    ensures Strip([SENTINEL] + plain) == plain
  {
    assert ([SENTINEL] + plain)[1..] == plain;
    StripPlain(plain);
  }

  // The draft "@" with a suggestion picked.
  const AT := EMPTY.(tail := "@")

  lemma PickAtAt(m: Marker)
    ensures var d := Picked(AT, 0, 0, 1, m);
      EditStep(AT, Pick(0, 1, m), d) && d.markers == [m] && Text(d) == [SENTINEL] + ("@" + m.name + " ")
  {
    var d := Picked(AT, 0, 0, 1, m);
    assert Text(AT) == "@" && Offset(AT, 0) == 0;
    assert IsToken(Text(AT), 1, 0);
    assert d.segments == [Segment([], m)] && d.segments[1..] == [] && d.tail == [];
    assert Text(d) == [SENTINEL] + ("@" + m.name + " ");
  }

  // Picking a full name at an "@" is sent as plain text.
  lemma FullNameIsNotLinked(m: Marker)
    requires !Spaceless(m.name) && SENTINEL !in m.name
    ensures var d := Picked(AT, 0, 0, 1, m);
      EditStep(AT, Pick(0, 1, m), d) && Serialized(Text(d), d.markers) == "@" + m.name + " "
  {
    PickAtAt(m);
    var d := Picked(AT, 0, 0, 1, m);
    SpaceUnlinksAll(Text(d), d.markers, m);
    SentinelIsNoSpace();
    StripMarked("@" + m.name + " ");
  }

  // Two mentions, the second picked first.
  function BackToFront(a: Marker, b: Marker): Draft {
    Draft([Segment([], a), Segment([], b)], [], [b, a])
  }

  lemma BackToFrontAgrees(a: Marker, b: Marker)
    requires a.name == b.name && Spaceless(a.name)
    ensures Valid(BackToFront(a, b)) && Agrees(BackToFront(a, b))
  {
    MarkersOfTwo(a, b);
    assert multiset([a, b]) == multiset([b, a]);
  }

  lemma MarkersOfTwo(a: Marker, b: Marker)
    ensures MarkersOf(BackToFront(a, b).segments) == [a, b]
    ensures Names([a, b]) == [a.name, b.name] && Names([b, a]) == [b.name, a.name]
  {
  }

  lemma SentTwo(a: Marker, b: Marker, x: Marker, y: Marker)
    ensures SentAs([Segment([], a), Segment([], b)], [x, y]) == LinkText(x) + " " + (LinkText(y) + " ")
  {
    SentFront(Segment([], a), [Segment([], b)], x, [y]);
    SentFront(Segment([], b), [], y, []);
    EmptyAround(LinkText(y) + " ");
    EmptyAround(LinkText(x) + " ");
  }

  lemma SentFront(s: Segment, more: seq<Segment>, x: Marker, markers: seq<Marker>)
    ensures SentAs([s] + more, [x] + markers) == s.before + (LinkText(x) + " ") + SentAs(more, markers)
  {
    assert ([s] + more)[1..] == more && ([x] + markers)[1..] == markers;
    Regroup(s.before, LinkText(x), " ");
  }

  lemma EmptyAround(s: string)
    ensures [] + s == s && s + [] == s
  {
  }

  // Two mentions of one name picked back to front are linked to each other's targets.
  lemma SameNamesSwap(a: Marker, b: Marker)
    requires a.name == b.name && Spaceless(a.name)
    ensures var d := BackToFront(a, b);
      Serialized(Text(d), d.markers) == LinkText(b) + " " + (LinkText(a) + " ")
  {
    BackToFrontAgrees(a, b);
    SendsIff(BackToFront(a, b));
    SentTwo(a, b, b, a);
    EmptyAround(LinkText(b) + " " + (LinkText(a) + " "));
  }

  /*** The cursor after a pick ***/

  // It stands right behind the mention, and no token ends there: the suggestions close.
  lemma PickClosesToken(text: string, start: nat, queryLength: nat, m: Marker)
    requires start + 1 + queryLength <= |text|
    ensures var (next, cursor) := InsertMention(text, start, queryLength, m);
      && cursor <= |next| && next[..cursor] == text[..start] + MentionText(m)
      && next[cursor..] == text[start + 1 + queryLength..]
      && forall at :: !IsToken(next, cursor, at)
  {
    var (next, cursor) := InsertMention(text, start, queryLength, m);
    assert next[..cursor] == text[..start] + MentionText(m);
    assert next[cursor - 1] == ' ' && IsSpace(' ') && ' ' != '@';
  }
}
