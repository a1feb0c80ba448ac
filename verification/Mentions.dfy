/** Mentions in the mobile composer: sentinel-marked runs paired in order with a list of markers. */
module Mentions {
  import opened Basics

  // U+2063 INVISIBLE SEPARATOR.
  const SENTINEL := '\U{2063}'

  datatype MentionType = Member | Agent | Squad | Everyone | IssueRef

  datatype Marker = Marker(kind: MentionType, id: string, name: string)

  // What /\s/ matches.
  predicate IsSpace(c: char) {
    || '\t' <= c <= '\r' || c == ' ' || c == '\U{00A0}' || c == '\U{1680}'
    || '\U{2000}' <= c <= '\U{200A}' || c == '\U{2028}' || c == '\U{2029}' || c == '\U{202F}'
    || c == '\U{205F}' || c == '\U{3000}' || c == '\U{FEFF}'
  }

  lemma SentinelIsNoSpace()
    ensures !IsSpace(SENTINEL) && SENTINEL != '@' && !IsSpace('@') && IsSpace(' ')
  {
  }

  function KindName(k: MentionType): string {
    match k
    case Member => "member" case Agent => "agent" case Squad => "squad"
    case Everyone => "all" case IssueRef => "issue"
  }

  function LinkText(m: Marker): string {
    "[" + (if m.kind.IssueRef? then m.name else "@" + m.name) + "](mention://" + KindName(m.kind) + "/" + m.id + ")"
  }

  function Strip(text: string): string {
    if text == [] then []
    else if text[0] == SENTINEL then Strip(text[1..])
    else [text[0]] + Strip(text[1..])
  }

  /*** The meaning of a text: its runs, read left to right ***/

  datatype Run = Plain(c: char) | Stray | Mention(word: string)

  // The longest prefix free of whitespace.
  function Word(text: string): (w: string)
    ensures w <= text && (forall c :: c in w ==> !IsSpace(c)) && (|w| < |text| ==> IsSpace(text[|w|]))
  {
    if text == [] || IsSpace(text[0]) then [] else [text[0]] + Word(text[1..])
  }

  function Runs(text: string): seq<Run>
    decreases |text|
  {
    if text == [] then []
    else if text[0] != SENTINEL then [Plain(text[0])] + Runs(text[1..])
    else if |text| > 1 && text[1] == '@' then
      var w := Word(text[2..]);
      [Mention(w)] + Runs(text[2 + |w|..])
    else [Stray] + Runs(text[1..])
  }

  function Words(runs: seq<Run>): seq<string> {
    if runs == [] then []
    else (if runs[0].Mention? then [runs[0].word] else []) + Words(runs[1..])
  }

  function Names(markers: seq<Marker>): seq<string> {
    Map((m: Marker) => m.name, markers)
  }

  // The runs with the mentions replaced, in order, by links to the markers; strays dropped.
  function Linked(runs: seq<Run>, markers: seq<Marker>): string {
    if runs == [] then []
    else match runs[0]
      case Plain(c) => [c] + Linked(runs[1..], markers)
      case Stray => Linked(runs[1..], markers)
      case Mention(_) => if markers == [] then [] else LinkText(markers[0]) + Linked(runs[1..], markers[1..])
  }

  // The same with each link replaced by its label, the "@" of an issue restored.
  function Labelled(runs: seq<Run>): string {
    if runs == [] then []
    else match runs[0]
      case Plain(c) => [c] + Labelled(runs[1..])
      case Stray => Labelled(runs[1..])
      case Mention(w) => "@" + w + Labelled(runs[1..])
  }

  // All the markers are linked, or none is: the marked words must be the markers' names, in order.
  function Serialized(text: string, markers: seq<Marker>): string {
    if Words(Runs(text)) == Names(markers) then Linked(Runs(text), markers) else Strip(text)
  }

  /*** The scanner ***/

  function IndexOfSentinel(text: string, from: nat): (r: Option<nat>)
    requires from <= |text|
    ensures r.Some? ==> from <= r.value < |text| && text[r.value] == SENTINEL && SENTINEL !in text[from..r.value]
    ensures r.None? ==> SENTINEL !in text[from..]
    decreases |text| - from
  {
    if from == |text| then None
    else if text[from] == SENTINEL then Some(from)
    else
      var r := IndexOfSentinel(text, from + 1);
      assert text[from..] == [text[from]] + text[from + 1..];
      assert r.Some? ==> text[from..r.value] == [text[from]] + text[from + 1..r.value];
      r
  }

  function Concat(parts: seq<string>): string {
    if parts == [] then [] else Concat(parts[..|parts| - 1]) + parts[|parts| - 1]
  }

  // What is left to do at some point of the scan.
  function Rest(text: string, markers: seq<Marker>): Option<string> {
    if Words(Runs(text)) == Names(markers) then Some(Linked(Runs(text), markers)) else None
  }

  function Prefixed(s: string, r: Option<string>): Option<string> {
    if r.Some? then Some(s + r.value) else None
  }

  lemma {:induction false} PlainRuns(plain: string, rest: string)
    requires SENTINEL !in plain
    ensures Words(Runs(plain + rest)) == Words(Runs(rest))
    ensures forall markers :: Linked(Runs(plain + rest), markers) == plain + Linked(Runs(rest), markers)
    ensures Labelled(Runs(plain + rest)) == plain + Labelled(Runs(rest))
  {
    if plain == [] {
      assert plain + rest == rest;
    } else {
      assert plain == [plain[0]] + plain[1..];
      assert (plain + rest)[0] == plain[0] && (plain + rest)[1..] == plain[1..] + rest;
      PlainRuns(plain[1..], rest);
    }
  }

  lemma RestAfterPlain(plain: string, rest: string, markers: seq<Marker>)
    requires SENTINEL !in plain
    ensures Rest(plain + rest, markers) == Prefixed(plain, Rest(rest, markers))
  {
    PlainRuns(plain, rest);
  }

  // A marked word pairs with the first marker, or the whole scan is off.
  lemma RestAfterMention(text: string, markers: seq<Marker>)
    requires |text| > 1 && text[0] == SENTINEL && text[1] == '@'
    ensures var w := Word(text[2..]);
      Rest(text, markers) ==
        if markers == [] || markers[0].name != w then None
        else Prefixed(LinkText(markers[0]), Rest(text[2 + |w|..], markers[1..]))
  {
    var w := Word(text[2..]);
    var words := Words(Runs(text[2 + |w|..]));
    assert Words(Runs(text)) == [w] + words;
    if markers != [] {
      assert Names(markers) == [markers[0].name] + Names(markers[1..]);
      assert [w] + words == Names(markers) <==> w == markers[0].name && words == Names(markers[1..]) by {
        assert ([w] + words)[1..] == words && Names(markers)[1..] == Names(markers[1..]);
      }
    }
  }

  lemma {:induction false} StripPlain(text: string)
    requires SENTINEL !in text
    ensures Strip(text) == text
  {
    if text != [] {
      assert text == [text[0]] + text[1..];
      StripPlain(text[1..]);
    }
  }

  lemma WordEndsAt(text: string, n: nat)
    requires n <= |text| && (forall i :: 0 <= i < n ==> !IsSpace(text[i])) && (n < |text| ==> IsSpace(text[n]))
    ensures Word(text) == text[..n]
  {
    var w := Word(text);
    assert forall i :: 0 <= i < |w| ==> w[i] == text[i] && w[i] in w;
    assert |w| == n;
  }

  method ReadWord(text: string, from: nat) returns (end: nat)
    requires from <= |text|
    ensures from <= end <= |text| && text[from..end] == Word(text[from..])
  {
    end := from;
    while end < |text| && !IsSpace(text[end])
      invariant from <= end <= |text|
      invariant forall i :: from <= i < end ==> !IsSpace(text[i])
    {
      end := end + 1;
    }
    WordEndsAt(text[from..], end - from);
    assert text[from..][..end - from] == text[from..end];
  }

  lemma PrefixedTwice(a: string, b: string, r: Option<string>)
    ensures Prefixed(a, Prefixed(b, r)) == Prefixed(a + b, r)
  {
    assert r.Some? ==> a + (b + r.value) == (a + b) + r.value;
  }

  // The scan so far, `out`, and what is left of it.
  function Pending(out: seq<string>, text: string, markers: seq<Marker>): Option<string> {
    Prefixed(Concat(out), Rest(text, markers))
  }

  lemma PushPlain(out: seq<string>, text: string, at: nat, markers: seq<Marker>)
    requires at <= |text| && SENTINEL !in text[..at]
    ensures Pending(out + [text[..at]], text[at..], markers) == Pending(out, text, markers)
  {
    assert text == text[..at] + text[at..];
    RestAfterPlain(text[..at], text[at..], markers);
    PrefixedTwice(Concat(out), text[..at], Rest(text[at..], markers));
  }

  lemma PushSlice(out: seq<string>, text: string, cursor: nat, at: nat, markers: seq<Marker>)
    requires cursor <= at <= |text| && SENTINEL !in text[cursor..at]
    ensures Pending(out + [text[cursor..at]], text[at..], markers) == Pending(out, text[cursor..], markers)
  {
    var left := text[cursor..];
    assert left[..at - cursor] == text[cursor..at] && left[at - cursor..] == text[at..];
    PushPlain(out, left, at - cursor, markers);
  }

  lemma PushLink(out: seq<string>, text: string, markers: seq<Marker>)
    requires |text| > 1 && text[0] == SENTINEL && text[1] == '@'
    requires markers != [] && markers[0].name == Word(text[2..])
    ensures Pending(out + [LinkText(markers[0])], text[2 + |markers[0].name|..], markers[1..]) == Pending(out, text, markers)
  {
    RestAfterMention(text, markers);
    PrefixedTwice(Concat(out), LinkText(markers[0]), Rest(text[2 + |markers[0].name|..], markers[1..]));
  }

  lemma PendingAtStart(text: string, markers: seq<Marker>)
    ensures Pending([], text, markers) == Rest(text, markers)
  {
    assert Rest(text, markers).Some? ==> [] + Rest(text, markers).value == Rest(text, markers).value;
  }

  lemma PendingAtEnd(out: seq<string>, markers: seq<Marker>)
    ensures Pending(out, [], markers) == if markers == [] then Some(Concat(out)) else None
  {
    assert Concat(out) + [] == Concat(out);
    assert |Names(markers)| == |markers|;
  }

  lemma NoSentinel(text: string, markers: seq<Marker>)
    requires SENTINEL !in text
    ensures Serialized(text, markers) == text
  {
    assert text + [] == text;
    PlainRuns(text, []);
    StripPlain(text);
  }

  // A sentinel at `at`: a stray one is skipped, a marked word becomes the next marker's link
  // or stops the scan.
  method TakeSentinel(text: string, at: nat, out: seq<string>, markers: seq<Marker>, markerIndex: nat)
    returns (cursor: nat, linked: bool, abort: bool)
    requires at < |text| && text[at] == SENTINEL && markerIndex <= |markers|
    ensures abort ==> Pending(out, text[at..], markers[markerIndex..]) == None
    ensures !abort ==> at < cursor <= |text| && (linked ==> markerIndex < |markers|)
    ensures !abort && linked ==>
              Pending(out, text[at..], markers[markerIndex..])
              == Pending(out + [LinkText(markers[markerIndex])], text[cursor..], markers[markerIndex + 1..])
    ensures !abort && !linked ==>
              Pending(out, text[at..], markers[markerIndex..]) == Pending(out, text[cursor..], markers[markerIndex..])
  {
    ghost var ms := markers[markerIndex..];
    if !(at + 1 < |text| && text[at + 1] == '@') {
      assert text[at..][1..] == text[at + 1..];
      return at + 1, false, false;
    }
    var wordEnd := ReadWord(text, at + 2);
    var word := text[at + 2..wordEnd];
    assert text[at..][2..] == text[at + 2..];
    if markerIndex == |markers| || markers[markerIndex].name != word {
      RestAfterMention(text[at..], ms);
      return at, false, true;
    }
    PushLink(out, text[at..], ms);
    assert text[at..][2 + |word|..] == text[wordEnd..] && ms[1..] == markers[markerIndex + 1..];
    return wordEnd, true, false;
  }

  method SerializeMentions(text: string, markers: seq<Marker>) returns (r: string)
    ensures r == Serialized(text, markers) == SerializedAs(text, markers, LinkText)
  {
    SerializedIsRendered(text, markers);
    if SENTINEL !in text {
      NoSentinel(text, markers);
      return text;
    }
    ghost var goal := Rest(text, markers);
    var out: seq<string> := [];
    var cursor := 0;
    var markerIndex := 0;
    var abort := false;
    PendingAtStart(text, markers);
    assert text[0..] == text && markers[0..] == markers;
    while cursor < |text|
      invariant cursor <= |text| && markerIndex <= |markers| && !abort
      invariant goal == Pending(out, text[cursor..], markers[markerIndex..])
    {
      ghost var ms := markers[markerIndex..];
      var sentinelAt := IndexOfSentinel(text, cursor);
      if sentinelAt.None? {
        assert text[cursor..|text|] == text[cursor..];
        PushSlice(out, text, cursor, |text|, ms);
        out := out + [text[cursor..]];
        cursor := |text|;
        break;
      }
      var at := sentinelAt.value;
      PushSlice(out, text, cursor, at, ms);
      out := out + [text[cursor..at]];
      var next, linked, stopped := TakeSentinel(text, at, out, markers, markerIndex);
      if stopped {
        abort := true;
        break;
      }
      if linked {
        out := out + [LinkText(markers[markerIndex])];
        markerIndex := markerIndex + 1;
      }
      cursor := next;
    }
    if abort || markerIndex != |markers| {
      if !abort {
        assert text[cursor..] == [];
        PendingAtEnd(out, markers[markerIndex..]);
      }
      return Strip(text);
    }
    assert text[cursor..] == [] && markers[markerIndex..] == [];
    PendingAtEnd(out, []);
    return Concat(out);
  }

  /*** No text is lost ***/

  lemma {:induction false} StripAppend(a: string, b: string)
    ensures Strip(a + b) == Strip(a) + Strip(b)
  {
    if a == [] {
      assert a + b == b;
    } else {
      assert (a + b)[0] == a[0] && (a + b)[1..] == a[1..] + b;
      StripAppend(a[1..], b);
    }
  }

  lemma StripMention(w: string, rest: string, labels: string)
    requires Strip(labels) == Strip(rest)
    ensures Strip([SENTINEL] + "@" + w + rest) == Strip("@" + w + labels) == "@" + Strip(w) + Strip(rest)
  {
    assert [SENTINEL] + "@" + w + rest == [SENTINEL] + ("@" + (w + rest));
    assert ([SENTINEL] + ("@" + (w + rest)))[1..] == "@" + (w + rest);
    assert ("@" + (w + rest))[1..] == w + rest;
    assert "@" + w + labels == "@" + (w + labels);
    assert ("@" + (w + labels))[1..] == w + labels;
    StripAppend(w, rest);
    StripAppend(w, labels);
    assert "@" + (Strip(w) + Strip(rest)) == "@" + Strip(w) + Strip(rest);
  }

  lemma {:induction false} LabelledKeepsText(text: string)
    ensures Strip(Labelled(Runs(text))) == Strip(text)
    decreases |text|
  {
    if text == [] {
    } else if text[0] != SENTINEL {
      LabelledKeepsText(text[1..]);
      assert Labelled(Runs(text)) == [text[0]] + Labelled(Runs(text[1..]));
    } else if |text| > 1 && text[1] == '@' {
      var w := Word(text[2..]);
      var rest := text[2 + |w|..];
      LabelledKeepsText(rest);
      assert text == [SENTINEL] + "@" + w + rest;
      StripMention(w, rest, Labelled(Runs(rest)));
      assert Labelled(Runs(text)) == "@" + w + Labelled(Runs(rest));
    } else {
      LabelledKeepsText(text[1..]);
    }
  }

  // Words free of sentinels make the labelled runs exactly the stripped text.
  lemma {:induction false} CleanWordsLoseNothing(text: string)
    requires forall w :: w in Words(Runs(text)) ==> SENTINEL !in w
    ensures Labelled(Runs(text)) == Strip(text)
  {
    LabelledKeepsText(text);
    LabelsAreClean(Runs(text));
    RunsPlain(text);
    StripPlain(Labelled(Runs(text)));
  }

  lemma {:induction false} RunsPlain(text: string)
    ensures forall c :: Plain(c) in Runs(text) ==> c != SENTINEL
    decreases |text|
  {
    if text != [] {
      RunsPlain(text[1..]);
      if text[0] == SENTINEL && |text| > 1 && text[1] == '@' {
        RunsPlain(text[2 + |Word(text[2..])|..]);
      }
    }
  }

  lemma {:induction false} LabelsAreClean(runs: seq<Run>)
    requires forall w :: w in Words(runs) ==> SENTINEL !in w
    ensures (forall c :: Plain(c) in runs ==> c != SENTINEL) ==> SENTINEL !in Labelled(runs)
  {
    if runs != [] {
      assert runs == [runs[0]] + runs[1..];
      assert runs[0].Mention? ==> runs[0].word in Words(runs);
      LabelsAreClean(runs[1..]);
    }
  }

  // The runs with each mention rendered for the next marker; the links are one rendering.
  function Rendered(runs: seq<Run>, markers: seq<Marker>, link: Marker -> string): string {
    if runs == [] then []
    else match runs[0]
      case Plain(c) => [c] + Rendered(runs[1..], markers, link)
      case Stray => Rendered(runs[1..], markers, link)
      case Mention(_) => if markers == [] then [] else link(markers[0]) + Rendered(runs[1..], markers[1..], link)
  }

  // What the serializer returns, with each link it emits rendered as `link` says.
  function SerializedAs(text: string, markers: seq<Marker>, link: Marker -> string): string {
    if Words(Runs(text)) == Names(markers) then Rendered(Runs(text), markers, link) else Strip(text)
  }

  // The label of a link, with the "@" of an issue restored.
  function Label(m: Marker): string {
    "@" + m.name
  }

  lemma {:induction false} LinkedIsRendered(runs: seq<Run>, markers: seq<Marker>)
    ensures Linked(runs, markers) == Rendered(runs, markers, LinkText)
  {
    if runs != [] {
      LinkedIsRendered(runs[1..], markers);
      if markers != [] {
        LinkedIsRendered(runs[1..], markers[1..]);
      }
    }
  }

  // The output is the rendering with the link texts.
  lemma SerializedIsRendered(text: string, markers: seq<Marker>)
    ensures Serialized(text, markers) == SerializedAs(text, markers, LinkText)
  {
    LinkedIsRendered(Runs(text), markers);
  }

  lemma {:induction false} LabelledIsRendered(runs: seq<Run>, markers: seq<Marker>)
    requires Words(runs) == Names(markers)
    ensures Rendered(runs, markers, Label) == Labelled(runs)
  {
    if runs != [] {
      if runs[0].Mention? {
        assert |Names(markers)| == |markers|;
        assert Words(runs)[0] == runs[0].word && Words(runs)[1..] == Words(runs[1..]);
        assert Names(markers)[1..] == Names(markers[1..]);
        LabelledIsRendered(runs[1..], markers[1..]);
      } else {
        assert Words(runs) == Words(runs[1..]);
        LabelledIsRendered(runs[1..], markers);
      }
    }
  }

  // With the links read as their labels, the output is the text, up to sentinels.
  lemma NoTextLost(text: string, markers: seq<Marker>)
    ensures Strip(SerializedAs(text, markers, Label)) == Strip(text)
  {
    if Words(Runs(text)) == Names(markers) {
      LabelledIsRendered(Runs(text), markers);
      LabelledKeepsText(text);
    } else {
      StripIsClean(text);
      StripPlain(Strip(text));
    }
  }

  lemma {:induction false} StripIsClean(text: string)
    ensures SENTINEL !in Strip(text)
  {
    if text != [] {
      StripIsClean(text[1..]);
    }
  }

  // No marker is linked, or none of their names holds a sentinel.
  predicate Recoverable(text: string, markers: seq<Marker>) {
    Words(Runs(text)) != Names(markers) || forall m :: m in markers ==> SENTINEL !in m.name
  }

  lemma {:induction false} WordsShow(runs: seq<Run>, w: string)
    requires w in Words(runs) && SENTINEL in w
    ensures SENTINEL in Labelled(runs)
  {
    if runs[0].Mention? && SENTINEL in runs[0].word {
      assert SENTINEL in "@" + runs[0].word;
    } else {
      assert Words(runs) == (if runs[0].Mention? then [runs[0].word] else []) + Words(runs[1..]);
      WordsShow(runs[1..], w);
    }
  }

  // It is exactly the text without its sentinels if and only if no linked name holds one.
  lemma LabelsLoseNothingIff(text: string, markers: seq<Marker>)
    ensures SerializedAs(text, markers, Label) == Strip(text) <==> Recoverable(text, markers)
  {
    if Words(Runs(text)) == Names(markers) {
      LabelledIsRendered(Runs(text), markers);
      if Recoverable(text, markers) {
        forall w | w in Words(Runs(text)) ensures SENTINEL !in w {
          var i :| 0 <= i < |Names(markers)| && Names(markers)[i] == w;
          assert markers[i] in markers;
        }
        CleanWordsLoseNothing(text);
      } else {
        var m :| m in markers && SENTINEL in m.name;
        var i :| 0 <= i < |markers| && markers[i] == m;
        assert Names(markers)[i] == m.name;
        WordsShow(Runs(text), m.name);
        StripIsClean(text);
      }
    }
  }

  /*** Texts the composer builds ***/

  datatype Token = Token(start: nat, query: string)

  // An in-progress mention at the cursor: "@" after whitespace or at the start, then no
  // whitespace and no further "@" up to the cursor.
  ghost predicate IsToken(text: string, cursor: int, start: nat) {
    && 1 <= cursor <= |text| && start < cursor && text[start] == '@'
    && (forall i :: start < i < cursor ==> text[i] != '@' && !IsSpace(text[i]))
    && (start > 0 ==> IsSpace(text[start - 1]))
  }

  method TokenAtCursor(text: string, cursor: int) returns (r: Option<Token>)
    ensures r.Some? ==> IsToken(text, cursor, r.value.start) && r.value.query == text[r.value.start + 1..cursor]
    ensures r.None? ==> forall start :: !IsToken(text, cursor, start)
  {
    if cursor < 1 || cursor > |text| {
      return None;
    }
    var i := cursor - 1;
    while i >= 0
      invariant -1 <= i < cursor
      invariant forall j :: i < j < cursor ==> text[j] != '@' && !IsSpace(text[j])
    {
      var ch := text[i];
      if ch == '@' {
        break;
      }
      if IsSpace(ch) {
        return None;
      }
      i := i - 1;
    }
    if i < 0 || text[i] != '@' {
      return None;
    }
    if i > 0 && text[i - 1] == SENTINEL {
      SentinelIsNoSpace();
      return None;
    }
    if i > 0 && !IsSpace(text[i - 1]) {
      return None;
    }
    return Some(Token(i, text[i + 1..cursor]));
  }

  function MentionText(m: Marker): string {
    [SENTINEL] + "@" + m.name + " "
  }

  // The text with the token replaced by a completed mention, and the new cursor.
  function InsertMention(text: string, start: nat, queryLength: nat, m: Marker): (string, nat)
    requires start + 1 + queryLength <= |text|
  {
    var insert := MentionText(m);
    (text[..start] + insert + text[start + 1 + queryLength..], start + |insert|)
  }
}
