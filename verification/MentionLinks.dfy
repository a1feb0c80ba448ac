/** Mention links as the server's parser reads them back from the text that was sent. */
module MentionLinks {
  import opened Basics
  import opened Mentions
  import opened MentionDrafts

  /*** The parser: [@label](mention://kind/id), leftmost, shortest label ***/

  const ANCHOR := "](mention://"

  // Digits, hexadecimal letters and dashes.
  predicate IdChar(c: char) {
    '0' <= c <= '9' || 'a' <= c <= 'f' || 'A' <= c <= 'F' || c == '-'
  }

  function IdLength(s: string): (n: nat)
    ensures n <= |s| && (forall i :: 0 <= i < n ==> IdChar(s[i])) && (n < |s| ==> !IdChar(s[n]))
  {
    if s == [] || !IdChar(s[0]) then 0 else 1 + IdLength(s[1..])
  }

  // An id up to the closing parenthesis.
  function ReadId(s: string): (r: Option<string>)
    ensures r.Some? ==> |r.value| < |s|
  {
    var n := IdLength(s);
    if 0 < n < |s| && s[n] == ')' then Some(s[..n])
    else if "all)" <= s then Some("all")
    else None
  }

  datatype Kind = Kind(word: string, kind: MentionType)

  const KINDS := [Kind("member/", Member), Kind("agent/", Agent), Kind("squad/", Squad), Kind("issue/", IssueRef), Kind("all/", Everyone)]

  // The kind a text begins with, and the length of its word with the slash.
  function ReadKind(kinds: seq<Kind>, s: string): (r: Option<(MentionType, nat)>)
    ensures r.Some? ==> r.value.1 <= |s|
  {
    if kinds == [] then None
    else if kinds[0].word <= s then Some((kinds[0].kind, |kinds[0].word|))
    else ReadKind(kinds[1..], s)
  }

  datatype Target = Target(kind: MentionType, id: string)

  // What stands behind an anchor: the target, and the length of its text.
  function ReadPath(kinds: seq<Kind>, s: string): (r: Option<(Target, nat)>)
    ensures r.Some? ==> r.value.1 <= |s|
  {
    match ReadKind(kinds, s)
    case None => None
    case Some((kind, n)) =>
      match ReadId(s[n..])
      case None => None
      case Some(id) => Some((Target(kind, id), n + |id| + 1))
  }

  // The target of a link read from its anchor on, and the length of the text read.
  function ReadTarget(s: string): (r: Option<(Target, nat)>)
    ensures r.Some? ==> 0 < r.value.1 <= |s|
  {
    if !(ANCHOR <= s) then None
    else
      match ReadPath(KINDS, s[|ANCHOR|..])
      case None => None
      case Some((target, n)) => Some((target, |ANCHOR| + n))
  }

  // The first place with a target behind at least one character of label from `start`, on one line.
  function ReadLabel<T>(read: string -> Option<T>, s: string, start: nat, at: nat): (r: Option<nat>)
    requires start <= at <= |s|
    ensures r.Some? ==> at <= r.value < |s| && start < r.value && read(s[r.value..]).Some?
    decreases |s| - at
  {
    if at == |s| then None
    else if start < at && read(s[at..]).Some? then Some(at)
    else if s[at] == '\n' then None
    else ReadLabel(read, s, start, at + 1)
  }

  // Where the label of a link that starts here ends. An "@" is no part of the label if the rest
  // of it can do without.
  function LabelEnd<T>(read: string -> Option<T>, s: string): (r: Option<nat>)
    ensures r.Some? ==> 1 < r.value < |s| && read(s[r.value..]).Some?
  {
    if s == [] || s[0] != '[' then None
    else if |s| > 1 && s[1] == '@' && ReadLabel(read, s, 2, 2).Some? then ReadLabel(read, s, 2, 2)
    else ReadLabel(read, s, 1, 1)
  }

  // A reader that reads something, and no more than there is.
  ghost predicate Sane<T>(read: string -> Option<(T, nat)>) {
    forall s :: read(s).Some? ==> 0 < read(s).value.1 <= |s|
  }

  // A link that starts here: what it reads as, and its length.
  function ReadLink<T>(read: string -> Option<(T, nat)>, s: string): (r: Option<(T, nat)>)
    requires Sane(read)
    ensures r.Some? ==> 0 < r.value.1 <= |s|
  {
    match LabelEnd(read, s)
    case None => None
    case Some(at) => Some((read(s[at..]).value.0, at + read(s[at..]).value.1))
  }

  // What all links of a text read as, in order.
  function ReadAll<T>(read: string -> Option<(T, nat)>, s: string): seq<T>
    requires Sane(read)
    decreases |s|
  {
    if s == [] then []
    else match ReadLink(read, s)
      case None => ReadAll(read, s[1..])
      case Some((value, n)) => [value] + ReadAll(read, s[n..])
  }

  // The targets of the mentions of a text.
  function ReadTargets(s: string): seq<Target> {
    assert forall t :: ReadTarget(t).Some? ==> 0 < ReadTarget(t).value.1 <= |t|;
    ReadAll(ReadTarget, s)
  }

  /*** Texts without an anchor ***/

  ghost predicate AnchorAt(s: string, i: int) {
    0 <= i <= |s| - |ANCHOR| && s[i..i + |ANCHOR|] == ANCHOR
  }

  ghost predicate AnchorFree(s: string) {
    forall i :: !AnchorAt(s, i)
  }

  lemma AnchorChars()
    ensures |ANCHOR| == 12 && ANCHOR[0] == ']' && SENTINEL !in ANCHOR && '[' !in ANCHOR && '@' !in ANCHOR
    ensures forall i :: 1 <= i < |ANCHOR| ==> ANCHOR[i] != ']'
  {
  }

  lemma AnchorPrefix(s: string, i: nat)
    requires i <= |s|
    ensures ANCHOR <= s[i..] <==> AnchorAt(s, i)
  {
    if ANCHOR <= s[i..] {
      assert s[i..][..|ANCHOR|] == s[i..i + |ANCHOR|];
    }
    if AnchorAt(s, i) {
      assert s[i..][..|ANCHOR|] == s[i..i + |ANCHOR|];
    }
  }

  lemma AnchorInside(a: string, b: string, c: string, i: nat)
    requires i + |ANCHOR| <= |b|
    ensures AnchorAt(a + b + c, |a| + i) <==> AnchorAt(b, i)
  {
    assert (a + b + c)[|a| + i..|a| + i + |ANCHOR|] == b[i..i + |ANCHOR|];
  }

  lemma PartIsFree(a: string, b: string, c: string)
    requires AnchorFree(a + b + c)
    ensures AnchorFree(b)
  {
    forall i ensures !AnchorAt(b, i) {
      if 0 <= i <= |b| - |ANCHOR| {
        AnchorInside(a, b, c, i);
      }
    }
  }

  // No anchor runs across a character that anchors do not hold.
  lemma JoinIsFree(a: string, c: char, b: string)
    requires AnchorFree(a) && AnchorFree(b) && c !in ANCHOR
    ensures AnchorFree(a + [c] + b)
  {
    var s := a + [c] + b;
    forall i ensures !AnchorAt(s, i) {
      if 0 <= i <= |s| - |ANCHOR| {
        if i + |ANCHOR| <= |a| {
          assert s == [] + a + ([c] + b);
          AnchorInside([], a, [c] + b, i);
        } else if i > |a| {
          assert s == (a + [c]) + b + [];
          AnchorInside(a + [c], b, [], i - |a| - 1);
        } else {
          assert s[i..i + |ANCHOR|][|a| - i] == c;
        }
      }
    }
  }

  // The first anchor of a text that is free up to one.
  lemma FirstAnchor(head: string, rest: string, i: nat)
    requires AnchorFree(head) && i < |head|
    ensures !AnchorAt(head + ANCHOR + rest, i)
  {
    var s := head + ANCHOR + rest;
    AnchorChars();
    if i + |ANCHOR| <= |head| {
      assert s == [] + head + (ANCHOR + rest);
      AnchorInside([], head, ANCHOR + rest, i);
    } else if i + |ANCHOR| <= |s| {
      assert s[i..i + |ANCHOR|][|head| - i] == s[|head|] == ']';
    }
  }

  lemma {:induction false} PlainReadsNothing(s: string)
    requires AnchorFree(s)
    ensures ReadTargets(s) == []
  {
    if s != [] {
      if LabelEnd(ReadTarget, s).Some? {
        AnchorPrefix(s, LabelEnd(ReadTarget, s).value);
        assert false;
      }
      assert s[..1] + s[1..] + [] == s;
      PartIsFree(s[..1], s[1..], []);
      PlainReadsNothing(s[1..]);
    }
  }

  /*** One link ***/

  // What the parser can read back: an id it accepts, and a name that leaves a label.
  predicate Readable(m: Marker) {
    && (m.id == "all" || (m.id != [] && forall c :: c in m.id ==> IdChar(c)))
    && m.name != [] && (m.kind.IssueRef? ==> m.name != "@")
  }

  function LabelOf(m: Marker): string {
    if m.kind.IssueRef? then m.name else "@" + m.name
  }

  function TargetOf(m: Marker): Target {
    Target(m.kind, m.id)
  }

  // A link from its anchor on.
  function LinkTail(m: Marker): string {
    KindName(m.kind) + "/" + m.id + ")"
  }

  lemma LinkParts(m: Marker)
    ensures LinkText(m) == "[" + LabelOf(m) + ANCHOR + LinkTail(m)
  {
  }

  lemma {:induction false} IdLengthOf(id: string, rest: string)
    requires (forall c :: c in id ==> IdChar(c)) && (rest == [] || !IdChar(rest[0]))
    ensures IdLength(id + rest) == |id|
  {
    if id == [] {
      assert id + rest == rest;
    } else {
      assert (id + rest)[0] == id[0] && (id + rest)[1..] == id[1..] + rest;
      IdLengthOf(id[1..], rest);
    }
  }

  lemma IdIsRead(m: Marker, rest: string)
    requires Readable(m)
    ensures ReadId(m.id + ")" + rest) == Some(m.id)
  {
    var s := m.id + ")" + rest;
    if m.id == "all" {
      assert s[..4] == "all)";
      assert s[0] == 'a' && s[1] == 'l';
      assert IdLength(s) == 1;
    } else {
      assert s == m.id + (")" + rest);
      IdLengthOf(m.id, ")" + rest);
      assert s[..|m.id|] == m.id;
    }
  }

  lemma {:induction false} KindAt(kinds: seq<Kind>, s: string, i: nat)
    requires i < |kinds| && kinds[i].word <= s && forall j :: 0 <= j < i ==> !(kinds[j].word <= s)
    ensures ReadKind(kinds, s) == Some((kinds[i].kind, |kinds[i].word|))
  {
    if i > 0 {
      KindAt(kinds[1..], s, i - 1);
    }
  }

  function PlaceOfKind(k: MentionType): nat {
    match k
    case Member => 0 case Agent => 1 case Squad => 2 case IssueRef => 3 case Everyone => 4
  }

  // No word of the table begins another.
  lemma KindIsRead(k: MentionType, rest: string)
    ensures var word := KindName(k) + "/";
      ReadKind(KINDS, word + rest) == Some((k, |word|)) && (word + rest)[|word|..] == rest
  {
    var s, i := KindName(k) + "/" + rest, PlaceOfKind(k);
    assert KINDS[i].word == KindName(k) + "/" && KINDS[i].kind == k;
    assert s[..|KINDS[i].word|] == KINDS[i].word;
    forall j | 0 <= j < i ensures !(KINDS[j].word <= s) {
      assert KINDS[j].word[0] != s[0] || KINDS[j].word[1] != s[1];
    }
    KindAt(KINDS, s, i);
  }

  lemma PathIsRead(kinds: seq<Kind>, s: string, kind: MentionType, n: nat, id: string)
    requires ReadKind(kinds, s) == Some((kind, n)) && n <= |s| && ReadId(s[n..]) == Some(id)
    ensures ReadPath(kinds, s) == Some((Target(kind, id), n + |id| + 1))
  {
  }

  lemma TargetBehindAnchor(rest: string, target: Target, n: nat)
    requires ReadPath(KINDS, rest) == Some((target, n))
    ensures ReadTarget(ANCHOR + rest) == Some((target, |ANCHOR| + n))
  {
    assert (ANCHOR + rest)[|ANCHOR|..] == rest;
  }

  lemma LinkTailFrom(m: Marker, rest: string)
    ensures ANCHOR + LinkTail(m) + rest == ANCHOR + (KindName(m.kind) + "/" + (m.id + ")" + rest))
    ensures |LinkTail(m)| == |KindName(m.kind)| + 1 + |m.id| + 1
  {
  }

  lemma PathOfLink(m: Marker, rest: string)
    requires Readable(m)
    ensures ReadPath(KINDS, KindName(m.kind) + "/" + (m.id + ")" + rest)) == Some((TargetOf(m), |LinkTail(m)|))
  {
    var more := m.id + ")" + rest;
    KindIsRead(m.kind, more);
    IdIsRead(m, rest);
    PathIsRead(KINDS, KindName(m.kind) + "/" + more, m.kind, |KindName(m.kind)| + 1, m.id);
    LinkTailFrom(m, rest);
  }

  lemma TargetIsRead(m: Marker, rest: string)
    requires Readable(m)
    ensures ReadTarget(ANCHOR + LinkTail(m) + rest) == Some((TargetOf(m), |ANCHOR| + |LinkTail(m)|))
  {
    PathOfLink(m, rest);
    LinkTailFrom(m, rest);
    TargetBehindAnchor(KindName(m.kind) + "/" + (m.id + ")" + rest), TargetOf(m), |LinkTail(m)|);
  }

  ghost predicate NothingAt<T>(read: string -> Option<T>, s: string, i: int) {
    0 <= i <= |s| && read(s[i..]).None?
  }

  // The label ends at the first target, or is not read as one because of a line break.
  lemma {:induction false} LabelIsShortest<T>(read: string -> Option<T>, s: string, start: nat, at: nat, end: nat)
    requires start <= at <= end < |s| && start < end && read(s[end..]).Some?
    requires forall i :: at <= i < end ==> NothingAt(read, s, i)
    ensures ReadLabel(read, s, start, at) == Some(end) || ReadLabel(read, s, start, at).None?
    ensures '\n' !in s[at..end] ==> ReadLabel(read, s, start, at) == Some(end)
    decreases end - at
  {
    if at < end {
      assert NothingAt(read, s, at);
      LabelIsShortest(read, s, start, at + 1, end);
      assert s[at..end] == [s[at]] + s[at + 1..end];
    }
  }

  // So does the label of a link that starts at the front, unless it is too short.
  lemma FrontLabel<T>(read: string -> Option<T>, s: string, end: nat)
    requires s != [] && 1 < end < |s| && (s[1] == '@' ==> end > 2) && read(s[end..]).Some?
    requires forall i :: 0 <= i < end ==> NothingAt(read, s, i)
    ensures LabelEnd(read, s) == Some(end) || LabelEnd(read, s).None?
    ensures s[0] == '[' && '\n' !in s[1..end] ==> LabelEnd(read, s) == Some(end)
  {
    LabelIsShortest(read, s, 1, 1, end);
    if end > 2 {
      LabelIsShortest(read, s, 2, 2, end);
      assert s[1..end] == [s[1]] + s[2..end];
    }
  }

  // The first place where the reader reads something, and where the part read ends.
  ghost predicate FirstAt<T(!new)>(read: string -> Option<(T, nat)>, s: string, at: nat, value: T, end: nat) {
    && at < end <= |s| && read(s[at..]) == Some((value, end - at))
    && forall i :: 0 <= i < at ==> NothingAt(read, s, i)
  }

  lemma FirstMoves<T(!new)>(read: string -> Option<(T, nat)>, s: string, at: nat, value: T, end: nat)
    requires FirstAt(read, s, at, value, end) && at > 0
    ensures FirstAt(read, s[1..], at - 1, value, end - 1)
  {
    assert s[1..][at - 1..] == s[at..];
    forall i | 0 <= i < at - 1 ensures NothingAt(read, s[1..], i) {
      assert NothingAt(read, s, i + 1) && s[1..][i..] == s[i + 1..];
    }
  }

  // Up to `at` stands text with the label of a link from `k` on.
  ghost predicate Labels(s: string, k: nat, at: nat) {
    && k + 1 < at < |s| && s[k] == '[' && (s[k + 1] == '@' ==> k + 2 < at)
    && forall i :: k < i < at ==> s[i] != '\n'
  }

  lemma LabelsMove(s: string, k: nat, at: nat)
    requires Labels(s, k, at) && k > 0
    ensures Labels(s[1..], k - 1, at - 1)
  {
    forall i | k - 1 < i < at - 1 ensures s[1..][i] != '\n' {
      assert s[i + 1] != '\n';
    }
  }

  lemma ReadOne<T>(read: string -> Option<(T, nat)>, s: string, value: T, end: nat)
    requires Sane(read) && ReadLink(read, s) == Some((value, end))
    ensures s != [] && ReadAll(read, s) == [value] + ReadAll(read, s[end..])
  {
  }

  lemma ReadOn<T>(read: string -> Option<(T, nat)>, s: string)
    requires Sane(read) && s != [] && ReadLink(read, s) == None
    ensures ReadAll(read, s) == ReadAll(read, s[1..])
  {
  }

  // Where a link starts it is read.
  lemma ReadNow<T(!new)>(read: string -> Option<(T, nat)>, s: string, at: nat, value: T, end: nat)
    requires Sane(read) && FirstAt(read, s, at, value, end) && Labels(s, 0, at)
    ensures ReadAll(read, s) == [value] + ReadAll(read, s[end..])
  {
    assert '\n' !in s[1..at];
    FrontLabel(read, s, at);
    ReadOne(read, s, value, end);
  }

  // Before it, it is read too, with a longer label, or looked for one character on.
  lemma ReadNowOrOn<T(!new)>(read: string -> Option<(T, nat)>, s: string, at: nat, value: T, end: nat)
    requires Sane(read) && FirstAt(read, s, at, value, end) && at > 2
    ensures ReadAll(read, s) == [value] + ReadAll(read, s[end..]) || ReadAll(read, s) == ReadAll(read, s[1..])
  {
    FrontLabel(read, s, at);
    if LabelEnd(read, s) == Some(at) {
      ReadOne(read, s, value, end);
    } else {
      ReadOn(read, s);
    }
  }

  // A link with text before it: what it reads as, where its label starts, and what follows it.
  ghost predicate LinkAhead<T(!new)>(read: string -> Option<(T, nat)>, s: string, k: nat, value: T, rest: string) {
    exists at: nat, end: nat :: FirstAt(read, s, at, value, end) && Labels(s, k, at) && s[end..] == rest
  }

  lemma LinkNear<T(!new)>(read: string -> Option<(T, nat)>, s: string, value: T, rest: string)
    requires Sane(read) && LinkAhead(read, s, 0, value, rest)
    ensures ReadAll(read, s) == [value] + ReadAll(read, rest)
  {
    var at: nat, end: nat :| FirstAt(read, s, at, value, end) && Labels(s, 0, at) && s[end..] == rest;
    ReadNow(read, s, at, value, end);
  }

  lemma LinkFar<T(!new)>(read: string -> Option<(T, nat)>, s: string, k: nat, value: T, rest: string) returns (t: string)
    requires Sane(read) && LinkAhead(read, s, k, value, rest) && k > 0
    ensures LinkAhead(read, t, k - 1, value, rest)
    ensures ReadAll(read, s) == [value] + ReadAll(read, rest) || ReadAll(read, s) == ReadAll(read, t)
  {
    t := s[1..];
    var at: nat, end: nat :| FirstAt(read, s, at, value, end) && Labels(s, k, at) && s[end..] == rest;
    ReadNowOrOn(read, s, at, value, end);
    FirstMoves(read, s, at, value, end);
    LabelsMove(s, k, at);
    assert t[end - 1..] == rest;
  }

  // Whatever the text before the link, it is the first thing read.
  lemma {:induction false} ReadFirst<T(!new)>(read: string -> Option<(T, nat)>, s: string, k: nat, value: T, rest: string)
    requires Sane(read) && LinkAhead(read, s, k, value, rest)
    ensures ReadAll(read, s) == [value] + ReadAll(read, rest)
    decreases k
  {
    if k == 0 {
      LinkNear(read, s, value, rest);
    } else {
      var t := LinkFar(read, s, k, value, rest);
      ReadFirst(read, t, k - 1, value, rest);
    }
  }

  lemma NoTargetAt(head: string, rest: string, i: nat)
    requires AnchorFree(head) && i < |head|
    ensures ReadTarget((head + ANCHOR + rest)[i..]).None?
  {
    FirstAnchor(head, rest, i);
    AnchorPrefix(head + ANCHOR + rest, i);
  }

  lemma FirstBehind(head: string, more: string, target: Target, n: nat)
    requires AnchorFree(head) && ReadTarget(ANCHOR + more) == Some((target, |ANCHOR| + n)) && n <= |more|
    ensures FirstAt(ReadTarget, head + ANCHOR + more, |head|, target, |head| + |ANCHOR| + n)
  {
    var s := head + ANCHOR + more;
    assert s[|head|..] == ANCHOR + more;
    forall i | 0 <= i < |head| ensures NothingAt(ReadTarget, s, i) {
      NoTargetAt(head, more, i);
    }
  }

  lemma LinkShape(q: string, m: Marker, rest: string)
    ensures q + LinkText(m) + rest == (q + "[" + LabelOf(m)) + ANCHOR + (LinkTail(m) + rest)
    ensures |q + LinkText(m)| == |q + "[" + LabelOf(m)| + |ANCHOR| + |LinkTail(m)|
    ensures (q + LinkText(m) + rest)[|q + "[" + LabelOf(m)|..] == ANCHOR + LinkTail(m) + rest
    ensures (q + LinkText(m) + rest)[|q + LinkText(m)|..] == rest
  {
    LinkParts(m);
  }

  lemma LabelShape(q: string, m: Marker, more: string)
    requires Readable(m) && '\n' !in m.name
    ensures var head := q + "[" + LabelOf(m);
      Labels(head + ANCHOR + more, |q|, |head|)
  {
    var head := q + "[" + LabelOf(m);
    var s := head + ANCHOR + more;
    assert m.name != [];
    assert '\n' !in LabelOf(m);
    forall i | |q| < i < |head| ensures s[i] != '\n' {
      assert s[i] == LabelOf(m)[i - |q| - 1];
    }
    assert s[|q| + 1] == LabelOf(m)[0];
  }

  lemma LinkFirst(head: string, m: Marker, rest: string)
    requires Readable(m) && AnchorFree(head)
    ensures Sane(ReadTarget)
    ensures FirstAt(ReadTarget, head + ANCHOR + (LinkTail(m) + rest), |head|, TargetOf(m), |head| + |ANCHOR| + |LinkTail(m)|)
  {
    TargetIsRead(m, rest);
    assert ANCHOR + LinkTail(m) + rest == ANCHOR + (LinkTail(m) + rest);
    FirstBehind(head, LinkTail(m) + rest, TargetOf(m), |LinkTail(m)|);
  }

  // Behind text without anchor a link reads as what it points at.
  lemma LinkIsRead(q: string, m: Marker, rest: string)
    requires Readable(m) && '\n' !in m.name && AnchorFree(q + "[" + LabelOf(m))
    ensures ReadTargets(q + LinkText(m) + rest) == [TargetOf(m)] + ReadTargets(rest)
  {
    var head, more := q + "[" + LabelOf(m), LinkTail(m) + rest;
    LinkShape(q, m, rest);
    LabelShape(q, m, more);
    LinkFirst(head, m, rest);
    assert LinkAhead(ReadTarget, head + ANCHOR + more, |q|, TargetOf(m), rest);
    ReadFirst(ReadTarget, head + ANCHOR + more, |q|, TargetOf(m), rest);
  }

  /*** What was sent ***/

  lemma StripOfParts(a: string, b: string)
    ensures Strip(a + ANCHOR + b) == Strip(a) + ANCHOR + Strip(b)
  {
    AnchorChars();
    StripAppend(a + ANCHOR, b);
    StripAppend(a, ANCHOR);
    StripPlain(ANCHOR);
  }

  lemma AnchorSurvives(s: string, i: nat)
    requires AnchorAt(s, i)
    ensures AnchorAt(Strip(s), |Strip(s[..i])|)
  {
    var a, b := s[..i], s[i + |ANCHOR|..];
    assert s == a + ANCHOR + b;
    StripOfParts(a, b);
    assert (Strip(a) + ANCHOR + Strip(b))[|Strip(a)|..|Strip(a)| + |ANCHOR|] == ANCHOR;
  }

  // Dropping sentinels breaks no anchor.
  lemma StrippedAnchors(s: string)
    requires AnchorFree(Strip(s))
    ensures AnchorFree(s)
  {
    forall i ensures !AnchorAt(s, i) {
      if AnchorAt(s, i) {
        AnchorSurvives(s, i);
        assert false;
      }
    }
  }

  function TargetsOf(markers: seq<Marker>): seq<Target> {
    Map((m: Marker) => TargetOf(m), markers)
  }

  lemma LabelIsFree(q: string, m: Marker, rest: string)
    requires AnchorFree(q + ("@" + m.name + rest))
    ensures AnchorFree(q + "[" + LabelOf(m)) && AnchorFree(m.name) && AnchorFree(rest)
  {
    var s := q + ("@" + m.name + rest);
    AnchorChars();
    assert s == [] + q + ("@" + m.name + rest);
    PartIsFree([], q, "@" + m.name + rest);
    assert s == (q + "@") + m.name + rest;
    PartIsFree(q + "@", m.name, rest);
    assert s == (q + "@" + m.name) + rest + [];
    PartIsFree(q + "@" + m.name, rest, []);
    assert AnchorFree([]);
    JoinIsFree([], '@', m.name);
    assert [] + ['@'] + m.name == "@" + m.name;
    JoinIsFree(q, '[', LabelOf(m));
  }

  lemma NextMention(runs: seq<Run>, markers: seq<Marker>)
    requires runs != [] && runs[0].Mention? && Words(runs) == Names(markers)
    ensures markers != [] && Words(runs[1..]) == Names(markers[1..])
    ensures Linked(runs, markers) == LinkText(markers[0]) + Linked(runs[1..], markers[1..])
    ensures Labelled(runs) == "@" + markers[0].name + Labelled(runs[1..])
    ensures TargetsOf(markers) == [TargetOf(markers[0])] + TargetsOf(markers[1..])
  {
    assert |Names(markers)| == |markers|;
    assert Words(runs)[0] == runs[0].word && Words(runs)[1..] == Words(runs[1..]);
    assert Names(markers)[1..] == Names(markers[1..]);
  }

  lemma NextPlain(runs: seq<Run>, markers: seq<Marker>)
    requires runs != [] && runs[0].Plain?
    ensures Words(runs) == Words(runs[1..])
    ensures Linked(runs, markers) == [runs[0].c] + Linked(runs[1..], markers)
    ensures Labelled(runs) == [runs[0].c] + Labelled(runs[1..])
  {
    assert Words(runs) == [] + Words(runs[1..]);
  }

  lemma NextStray(runs: seq<Run>, markers: seq<Marker>)
    requires runs != [] && runs[0].Stray?
    ensures Words(runs) == Words(runs[1..])
    ensures Linked(runs, markers) == Linked(runs[1..], markers) && Labelled(runs) == Labelled(runs[1..])
  {
    assert Words(runs) == [] + Words(runs[1..]);
  }

  lemma Regrouped(a: string, b: string, c: string)
    ensures a + (b + c) == (a + b) + c
  {
  }

  lemma MentionReads(q: string, m: Marker, labels: string, links: string, more: seq<Target>)
    requires Readable(m) && Spaceless(m.name) && AnchorFree(q + ("@" + m.name + labels))
    requires ReadTargets(links) == more
    ensures ReadTargets(q + (LinkText(m) + links)) == [TargetOf(m)] + more
  {
    assert IsSpace('\n');
    LabelIsFree(q, m, labels);
    LinkIsRead(q, m, links);
    Regrouped(q, LinkText(m), links);
  }

  lemma {:induction false} LinkedReads(q: string, runs: seq<Run>, markers: seq<Marker>)
    requires Words(runs) == Names(markers) && AnchorFree(q + Labelled(runs))
    requires forall m :: m in markers ==> Readable(m) && Spaceless(m.name)
    ensures ReadTargets(q + Linked(runs, markers)) == TargetsOf(markers)
    decreases |runs|
  {
    if runs == [] {
      assert |Names(markers)| == |markers|;
      assert q + Linked(runs, markers) == q && q + Labelled(runs) == q;
      PlainReadsNothing(q);
    } else if runs[0].Mention? {
      NextMention(runs, markers);
      LabelIsFree(q, markers[0], Labelled(runs[1..]));
      assert [] + Labelled(runs[1..]) == Labelled(runs[1..]);
      LinkedReads([], runs[1..], markers[1..]);
      assert [] + Linked(runs[1..], markers[1..]) == Linked(runs[1..], markers[1..]);
      MentionReads(q, markers[0], Labelled(runs[1..]), Linked(runs[1..], markers[1..]), TargetsOf(markers[1..]));
    } else if runs[0].Plain? {
      var typed := [runs[0].c];
      NextPlain(runs, markers);
      Regrouped(q, typed, Labelled(runs[1..]));
      LinkedReads(q + typed, runs[1..], markers);
      Regrouped(q, typed, Linked(runs[1..], markers));
    } else {
      NextStray(runs, markers);
      LinkedReads(q, runs[1..], markers);
    }
  }

  // The names of linked markers are words of the text: without whitespace, and without anchor.
  lemma LinkedNames(text: string, markers: seq<Marker>)
    requires AnchorFree(Strip(text)) && Words(Runs(text)) == Names(markers)
    ensures AnchorFree(Labelled(Runs(text)))
    ensures forall m :: m in markers ==> Spaceless(m.name) && AnchorFree(m.name)
  {
    LabelledKeepsText(text);
    StrippedAnchors(Labelled(Runs(text)));
    WordsHoldNoSpace(text);
    forall m | m in markers ensures Spaceless(m.name) && AnchorFree(m.name) {
      var i :| 0 <= i < |markers| && markers[i] == m;
      assert Names(markers)[i] in Words(Runs(text));
      WordIsFree(Runs(text), m.name);
    }
  }

  lemma {:induction false} WordIsFree(runs: seq<Run>, w: string)
    requires AnchorFree(Labelled(runs)) && w in Words(runs)
    ensures AnchorFree(w)
  {
    var labels := Labelled(runs[1..]);
    if runs[0].Mention? && runs[0].word == w {
      PartIsFree("@", w, labels);
    } else {
      assert Words(runs) == (if runs[0].Mention? then [runs[0].word] else []) + Words(runs[1..]);
      var first := if runs[0].Mention? then "@" + runs[0].word else if runs[0].Plain? then [runs[0].c] else [];
      assert Labelled(runs) == first + labels + [];
      PartIsFree(first, labels, []);
      WordIsFree(runs[1..], w);
    }
  }

  // The server reads from what was sent exactly the markers' targets, in order, or none if the
  // text was sent plain: a text without anchor of its own, and markers that can be read.
  lemma SentReadsBack(text: string, markers: seq<Marker>)
    requires AnchorFree(Strip(text)) && forall m :: m in markers ==> Readable(m)
    ensures ReadTargets(Serialized(text, markers)) ==
      if Words(Runs(text)) == Names(markers) then TargetsOf(markers) else []
  {
    if Words(Runs(text)) == Names(markers) {
      LinkedNames(text, markers);
      assert [] + Labelled(Runs(text)) == Labelled(Runs(text));
      LinkedReads([], Runs(text), markers);
      assert [] + Linked(Runs(text), markers) == Linked(Runs(text), markers);
    } else {
      PlainReadsNothing(Strip(text));
    }
  }

  /*** The labels ***/

  // What a link shows: its label as read from the link, with the "@" of an issue put back.
  function ShownAs(link: string): string {
    match LabelEnd(ReadTarget, link)
    case None => link
    case Some(at) => (if ReadTarget(link[at..]).value.0.kind.IssueRef? then "@" else "") + link[1..at]
  }

  lemma HeadIsFree(m: Marker)
    requires AnchorFree(m.name)
    ensures AnchorFree("[" + LabelOf(m))
  {
    AnchorChars();
    assert AnchorFree([]);
    JoinIsFree([], '@', m.name);
    assert [] + ['@'] + m.name == "@" + m.name;
    JoinIsFree([], '[', LabelOf(m));
    assert [] + ['['] + LabelOf(m) == "[" + LabelOf(m);
  }

  lemma LinkAlone(m: Marker)
    requires Readable(m) && Spaceless(m.name) && AnchorFree(m.name)
    ensures var at := 1 + |LabelOf(m)|;
      FirstAt(ReadTarget, LinkText(m), at, TargetOf(m), |LinkText(m)|) && Labels(LinkText(m), 0, at)
  {
    var head, tail := "[" + LabelOf(m), LinkTail(m);
    HeadIsFree(m);
    LinkFirst(head, m, []);
    assert IsSpace('\n');
    LabelShape([], m, tail);
    assert [] + "[" + LabelOf(m) == head && tail + [] == tail;
    LinkParts(m);
    LinkLength(m);
  }

  lemma LinkLength(m: Marker)
    ensures |LinkText(m)| == 1 + |LabelOf(m)| + |ANCHOR| + |LinkTail(m)|
    ensures LinkText(m)[1..1 + |LabelOf(m)|] == LabelOf(m)
  {
    LinkParts(m);
  }

  // An issue's label is its name, every other label is its name behind an "@".
  lemma LabelIsRead(m: Marker)
    requires Readable(m) && Spaceless(m.name) && AnchorFree(m.name)
    ensures ShownAs(LinkText(m)) == Label(m)
  {
    LinkAlone(m);
    LinkLength(m);
    LabelRead(LinkText(m), 1 + |LabelOf(m)|, TargetOf(m), |LinkText(m)|);
  }

  lemma LabelRead(s: string, at: nat, target: Target, end: nat)
    requires FirstAt(ReadTarget, s, at, target, end) && Labels(s, 0, at)
    ensures ShownAs(s) == (if target.kind.IssueRef? then "@" else "") + s[1..at]
  {
    assert '\n' !in s[1..at];
    FrontLabel(ReadTarget, s, at);
  }

  lemma {:induction false} SameRendering(runs: seq<Run>, markers: seq<Marker>, f: Marker -> string, g: Marker -> string)
    requires forall m :: m in markers ==> f(m) == g(m)
    ensures Rendered(runs, markers, f) == Rendered(runs, markers, g)
  {
    if runs != [] {
      if runs[0].Mention? {
        if markers != [] {
          SameRendering(runs[1..], markers[1..], f, g);
        }
      } else {
        SameRendering(runs[1..], markers, f, g);
      }
    }
  }

  // To a reader who sees each link's label the message is the text that was written.
  lemma NoTextLostToReaders(text: string, markers: seq<Marker>)
    requires AnchorFree(Strip(text)) && forall m :: m in markers ==> Readable(m)
    ensures Strip(SerializedAs(text, markers, m => ShownAs(LinkText(m)))) == Strip(text)
  {
    NoTextLost(text, markers);
    if Words(Runs(text)) == Names(markers) {
      LinkedNames(text, markers);
      forall m | m in markers ensures ShownAs(LinkText(m)) == Label(m) {
        LabelIsRead(m);
      }
      SameRendering(Runs(text), markers, m => ShownAs(LinkText(m)), Label);
    }
  }
}
