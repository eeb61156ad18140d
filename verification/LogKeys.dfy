/**
 `filterToKey` and `keyToFilter`: a printer and a parser that the log cache relies on to find a
 filter's entry again, and exactly when they do.
 */
module LogKeys {
  import opened Wrappers

  // ---------- split and join ----------

  /** `String.prototype.split`. */
  function Split<T(==)>(s: seq<T>, sep: T): (pieces: seq<seq<T>>)
    ensures |pieces| >= 1
  {
    if s == [] then [[]] else InFront(s[0], Split(s[1..], sep), sep)
  }

  /** A character in front of a text that has been split. */
  function InFront<T(==)>(c: T, pieces: seq<seq<T>>, sep: T): (more: seq<seq<T>>)
    requires |pieces| >= 1
    ensures |more| >= 1
  {
    if c == sep then [[]] + pieces else [[c] + pieces[0]] + pieces[1..]
  }

  lemma InFrontAppend<T>(c: T, a: seq<seq<T>>, b: seq<seq<T>>, sep: T)
    requires |a| >= 1
    ensures InFront(c, a + b, sep) == InFront(c, a, sep) + b
  {
    assert (a + b)[1..] == a[1..] + b;
  }

  /** `Array.prototype.join`. */
  function Join<T>(pieces: seq<seq<T>>, sep: T): seq<T> {
    if pieces == [] then []
    else if |pieces| == 1 then pieces[0]
    else pieces[0] + [sep] + Join(pieces[1..], sep)
  }

  lemma {:induction false} SplitAtSep<T>(a: seq<T>, sep: T, b: seq<T>)
    ensures Split(a + [sep] + b, sep) == Split(a, sep) + Split(b, sep)
  {
    if a == [] {
      assert (a + [sep] + b)[1..] == b;
    } else {
      SplitAtSep(a[1..], sep, b);
      assert (a + [sep] + b)[1..] == a[1..] + [sep] + b;
      InFrontAppend(a[0], Split(a[1..], sep), Split(b, sep), sep);
    }
  }

  lemma {:induction false} SplitFree<T>(s: seq<T>, sep: T)
    ensures sep !in s ==> Split(s, sep) == [s]
    ensures |Split(s, sep)| == 1 <==> sep !in s
  {
    if s != [] {
      SplitFree(s[1..], sep);
      assert s == [s[0]] + s[1..];
    }
  }

  lemma {:induction false} JoinOfSplit<T>(s: seq<T>, sep: T)
    ensures Join(Split(s, sep), sep) == s
  {
    if s != [] {
      var rest := Split(s[1..], sep);
      JoinOfSplit(s[1..], sep);
      if s[0] == sep {
        assert ([[]] + rest)[1..] == rest;
      } else if |rest| > 1 {
        assert ([[s[0]] + rest[0]] + rest[1..])[1..] == rest[1..];
      }
    }
  }

  /** The pieces hold nothing but what was in the text, and no separator. */
  lemma {:induction false} PiecesFree<T>(s: seq<T>, sep: T)
    ensures forall piece <- Split(s, sep) :: sep !in piece && forall x <- piece :: x in s
  {
    if s != [] {
      PiecesFree(s[1..], sep);
      var rest := Split(s[1..], sep);
      assert rest[0] in rest;
      assert forall piece <- rest[1..] :: piece in rest;
    }
  }

  lemma {:induction false} SplitOfJoin<T>(pieces: seq<seq<T>>, sep: T)
    requires pieces != [] && forall piece <- pieces :: sep !in piece
    ensures Split(Join(pieces, sep), sep) == pieces
  {
    SplitFree(pieces[0], sep);
    if |pieces| > 1 {
      SplitOfJoin(pieces[1..], sep);
      SplitAtSep(pieces[0], sep, Join(pieces[1..], sep));
      assert pieces == [pieces[0]] + pieces[1..];
    }
  }

  predicate NoEmptyPiece<T(==)>(s: seq<T>, sep: T) {
    forall piece <- Split(s, sep) :: piece != []
  }

  predicate AllNoEmpty<T(==)>(texts: seq<seq<T>>, sep: T) {
    forall text <- texts :: NoEmptyPiece(text, sep)
  }

  lemma InAppend<T>(a: seq<T>, b: seq<T>, x: T)
    ensures x in a + b <==> x in a || x in b
  {
  }

  lemma NoEmptyAtSep<T>(a: seq<T>, sep: T, b: seq<T>)
    ensures NoEmptyPiece(a + [sep] + b, sep) <==> NoEmptyPiece(a, sep) && NoEmptyPiece(b, sep)
  {
    SplitAtSep(a, sep, b);
    InAppend(Split(a, sep), Split(b, sep), []);
  }

  lemma {:induction false} NoEmptyInJoin<T>(texts: seq<seq<T>>, sep: T)
    requires texts != []
    ensures NoEmptyPiece(Join(texts, sep), sep) <==> AllNoEmpty(texts, sep)
  {
    assert texts[0] in texts;
    assert forall text <- texts :: text == texts[0] || text in texts[1..];
    assert forall text <- texts[1..] :: text in texts;
    if |texts| > 1 {
      NoEmptyInJoin(texts[1..], sep);
      NoEmptyAtSep(texts[0], sep, Join(texts[1..], sep));
    }
  }

  lemma {:induction false} InJoin<T>(pieces: seq<seq<T>>, sep: T, x: T)
    requires x != sep
    ensures x in Join(pieces, sep) <==> exists piece <- pieces :: x in piece
  {
    if |pieces| > 1 {
      InJoin(pieces[1..], sep, x);
      assert pieces == [pieces[0]] + pieces[1..];
    }
  }

  // ---------- filters and keys ----------

  datatype Topic = Null | One(text: string) | AnyOf(parts: seq<string>)

  datatype EventFilter = EventFilter(address: Option<string>, topics: Option<seq<Topic>>, fromBlock: Option<nat>)

  /** The text of a topic that is absent or empty. */
  const NOTHING: string := "\0"

  /** An array of alternatives is printed as it is, also when it is empty. */
  function Render(t: Topic): string {
    match t
    case Null => NOTHING
    case One(text) => if text == "" then NOTHING else text
    case AnyOf(parts) => Join(parts, ';')
  }

  function Rendered(topics: seq<Topic>): (texts: seq<string>)
    ensures |texts| == |topics|
  {
    seq(|topics|, i requires 0 <= i < |topics| => Render(topics[i]))
  }

  function TopicsText(f: EventFilter): string {
    if f.topics.None? then "" else Join(Rendered(f.topics.value), '-')
  }

  function FilterToKey(f: EventFilter): string {
    f.address.GetOr("") + [':'] + TopicsText(f)
  }

  function ToTopic(text: string): Topic {
    var parts := Split(text, ';');
    if |parts| == 1 then One(parts[0]) else AnyOf(parts)
  }

  function ToTopics(texts: seq<string>): (topics: seq<Topic>)
    ensures |topics| == |texts|
  {
    seq(|texts|, i requires 0 <= i < |texts| => ToTopic(texts[i]))
  }

  /** A text without a colon has no topics to split: the source throws. */
  function KeyToFilter(key: string): EventFilter
    requires |Split(key, ':')| >= 2
  {
    var pcs := Split(key, ':');
    EventFilter(if pcs[0] == "" then None else Some(pcs[0]), Some(ToTopics(Split(pcs[1], '-'))), None)
  }

  /** The key that what is fetched for a key lands under. */
  function Normal(key: string): string
    requires |Split(key, ':')| >= 2
  {
    FilterToKey(KeyToFilter(key))
  }

  predicate IsKey(key: string) {
    |Split(key, ':')| >= 2
  }

  predicate Stable(key: string) {
    IsKey(key) && Normal(key) == key
  }

  lemma KeysAreKeys(f: EventFilter)
    ensures IsKey(FilterToKey(f))
    ensures Split(FilterToKey(f), ':') == Split(f.address.GetOr(""), ':') + Split(TopicsText(f), ':')
  {
    SplitAtSep(f.address.GetOr(""), ':', TopicsText(f));
  }

  function Filled(piece: string): string {
    if piece == "" then NOTHING else piece
  }

  function AllFilled(pieces: seq<string>): (filled: seq<string>)
    ensures |filled| == |pieces|
  {
    seq(|pieces|, i requires 0 <= i < |pieces| => Filled(pieces[i]))
  }

  lemma RenderParsed(piece: string)
    ensures Render(ToTopic(piece)) == Filled(piece)
  {
    SplitFree(piece, ';');
    JoinOfSplit(piece, ';');
  }

  /** Parsing a key and printing it again drops what follows a second colon and fills empty topics. */
  lemma NormalIs(key: string)
    requires IsKey(key)
    ensures var pcs := Split(key, ':');
            Normal(key) == pcs[0] + [':'] + Join(AllFilled(Split(pcs[1], '-')), '-')
  {
    var pieces := Split(Split(key, ':')[1], '-');
    forall i | 0 <= i < |pieces|
      ensures Render(ToTopic(pieces[i])) == Filled(pieces[i])
    {
      RenderParsed(pieces[i]);
    }
    assert Rendered(ToTopics(pieces)) == AllFilled(pieces);
  }

  /** The parts of a key that was parsed and printed. */
  lemma NormalParts(key: string)
    requires IsKey(key)
    ensures var pcs := Split(key, ':');
            var filled := AllFilled(Split(pcs[1], '-'));
            Split(Normal(key), ':') == [pcs[0], Join(filled, '-')] && Split(Join(filled, '-'), '-') == filled
  {
    var pcs := Split(key, ':');
    var pieces := Split(pcs[1], '-');
    var filled := AllFilled(pieces);
    NormalIs(key);
    PiecesFree(key, ':');
    assert pcs[0] in pcs && pcs[1] in pcs;
    PiecesFree(pcs[1], '-');
    forall piece | piece in filled
      ensures '-' !in piece && ':' !in piece
    {
      var i :| 0 <= i < |filled| && filled[i] == piece;
      assert pieces[i] in pieces;
    }
    SplitOfJoin(filled, '-');
    InJoin(filled, '-', ':');
    SplitFree(pcs[0], ':');
    SplitFree(Join(filled, '-'), ':');
    SplitAtSep(pcs[0], ':', Join(filled, '-'));
  }

  lemma FilledSame(pieces: seq<string>)
    ensures AllFilled(pieces) == pieces <==> forall piece <- pieces :: piece != ""
  {
    if forall piece <- pieces :: piece != "" {
      assert forall i :: 0 <= i < |pieces| ==> pieces[i] in pieces;
      assert AllFilled(pieces) == pieces;
    } else {
      var i :| 0 <= i < |pieces| && pieces[i] == "";
      assert AllFilled(pieces)[i] == NOTHING;
    }
  }

  /** A key finds its own entry again exactly when it has one colon and no empty topic after it. */
  lemma StableExact(key: string)
    ensures Stable(key) <==> |Split(key, ':')| == 2 && NoEmptyPiece(Split(key, ':')[1], '-')
  {
    var pcs := Split(key, ':');
    if IsKey(key) {
      var pieces := Split(pcs[1], '-');
      NormalParts(key);
      FilledSame(pieces);
      if Stable(key) {
        assert pcs == [pcs[0], Join(AllFilled(pieces), '-')];
        assert Split(pcs[1], '-') == AllFilled(pieces);
      }
      if |pcs| == 2 && NoEmptyPiece(pcs[1], '-') {
        NormalIs(key);
        JoinOfSplit(pcs[1], '-');
        JoinOfSplit(key, ':');
        assert pcs[1..] == [pcs[1]];
      }
    }
  }

  /** Whatever the key, the one it leads to is stable. */
  lemma NormalIsStable(key: string)
    requires IsKey(key)
    ensures IsKey(Normal(key)) && Stable(Normal(key))
  {
    var pieces := Split(Split(key, ':')[1], '-');
    NormalParts(key);
    StableExact(Normal(key));
    forall piece | piece in AllFilled(pieces)
      ensures piece != ""
    {
    }
  }

  /** What a caller can check: no colon, at least one topic, and no empty part between dashes. */
  predicate StableFilter(f: EventFilter) {
    && ':' !in f.address.GetOr("")
    && f.topics.Some? && f.topics.value != []
    && forall text <- Rendered(f.topics.value) :: ':' !in text && NoEmptyPiece(text, '-')
  }

  /** The logs fetched for a filter land under the key that asked for them exactly for these filters. */
  lemma FilterStableExact(f: EventFilter)
    ensures Stable(FilterToKey(f)) <==> StableFilter(f)
  {
    var address, body := f.address.GetOr(""), TopicsText(f);
    KeysAreKeys(f);
    StableExact(FilterToKey(f));
    SplitFree(address, ':');
    SplitFree(body, ':');
    if f.topics.Some? && f.topics.value != [] {
      NoEmptyInJoin(Rendered(f.topics.value), '-');
      InJoin(Rendered(f.topics.value), '-', ':');
    } else {
      assert body == "" && Split(body, '-')[0] == "";
    }
  }

  /** Parts that are not empty and hold no separator. */
  predicate CleanPart(s: string) {
    s != "" && ':' !in s && '-' !in s && ';' !in s
  }

  predicate CleanTopic(t: Topic) {
    match t
    case Null => true
    case One(text) => CleanPart(text)
    case AnyOf(parts) => parts != [] && forall part <- parts :: CleanPart(part)
  }

  lemma CleanText(t: Topic)
    requires CleanTopic(t)
    ensures ':' !in Render(t) && NoEmptyPiece(Render(t), '-')
  {
    var text := Render(t);
    if t.AnyOf? {
      var part := t.parts[0];
      assert part in t.parts && part[0] in part;
      InJoin(t.parts, ';', ':');
      InJoin(t.parts, ';', '-');
      InJoin(t.parts, ';', part[0]);
      assert text != "";
    }
    SplitFree(text, '-');
  }

  /** Ordinary filters, of addresses and topic hashes, are stable. */
  lemma CleanFilterIsStable(f: EventFilter)
    requires ':' !in f.address.GetOr("") && f.topics.Some? && f.topics.value != []
    requires forall t <- f.topics.value :: CleanTopic(t)
    ensures Stable(FilterToKey(f))
  {
    var texts := Rendered(f.topics.value);
    forall text | text in texts
      ensures ':' !in text && NoEmptyPiece(text, '-')
    {
      var i :| 0 <= i < |texts| && texts[i] == text;
      CleanText(f.topics.value[i]);
    }
    FilterStableExact(f);
  }

  /** A filter without topics asks under one key and is answered under another. */
  lemma NoTopics(address: string)
    requires ':' !in address
    ensures var key := FilterToKey(EventFilter(Some(address), None, None));
            key == address + [':'] && IsKey(key) && Normal(key) == key + NOTHING && !Stable(key)
  {
    var f := EventFilter(Some(address), None, None);
    var key := FilterToKey(f);
    KeysAreKeys(f);
    SplitFree(address, ':');
    assert Split(key, ':') == [address, ""];
    NormalIs(key);
    assert Split("", '-') == [""] && AllFilled([""]) == [NOTHING];
  }

  // ---------- filters that are read back ----------

  predicate FreePart(s: string) {
    ':' !in s && '-' !in s && ';' !in s
  }

  /** A text of its own, or two or more alternatives. */
  predicate ReadableTopic(t: Topic) {
    match t
    case Null => false
    case One(text) => text != "" && FreePart(text)
    case AnyOf(parts) => |parts| >= 2 && forall part <- parts :: FreePart(part)
  }

  predicate ReadableFilter(f: EventFilter) {
    && f.fromBlock.None? && (f.address.Some? ==> f.address.value != "" && ':' !in f.address.value)
    && f.topics.Some? && f.topics.value != [] && forall t <- f.topics.value :: ReadableTopic(t)
  }

  lemma TopicReads(t: Topic)
    requires ReadableTopic(t)
    ensures ToTopic(Render(t)) == t && ':' !in Render(t) && '-' !in Render(t)
  {
    match t {
      case One(text) => SplitFree(text, ';');
      case AnyOf(parts) =>
        SplitOfJoin(parts, ';');
        InJoin(parts, ';', ':');
        InJoin(parts, ';', '-');
    }
  }

  /** What a key is split into when neither its address nor its topics hold a separator. */
  lemma KeyPieces(f: EventFilter)
    requires ':' !in f.address.GetOr("") && f.topics.Some? && f.topics.value != []
    requires forall text <- Rendered(f.topics.value) :: ':' !in text && '-' !in text
    ensures Split(FilterToKey(f), ':') == [f.address.GetOr(""), TopicsText(f)]
    ensures Split(TopicsText(f), '-') == Rendered(f.topics.value)
  {
    KeysAreKeys(f);
    InJoin(Rendered(f.topics.value), '-', ':');
    SplitFree(f.address.GetOr(""), ':');
    SplitFree(TopicsText(f), ':');
    SplitOfJoin(Rendered(f.topics.value), '-');
  }

  lemma ReadableReads(f: EventFilter)
    requires ReadableFilter(f)
    ensures IsKey(FilterToKey(f)) && KeyToFilter(FilterToKey(f)) == f
  {
    var topics, texts := f.topics.value, Rendered(f.topics.value);
    forall i | 0 <= i < |topics|
      ensures ToTopic(texts[i]) == topics[i] && ':' !in texts[i] && '-' !in texts[i]
    {
      assert topics[i] in topics;
      TopicReads(topics[i]);
    }
    KeysAreKeys(f);
    KeyPieces(f);
    assert ToTopics(texts) == topics;
  }

  /** A topic that was read holds no separators, and alternatives are two or more. */
  lemma ReadTopic(piece: string)
    requires ':' !in piece && '-' !in piece
    ensures var t := ToTopic(piece);
            if t.One? then t.text == piece && FreePart(piece) else t.AnyOf? && |t.parts| >= 2 && forall part <- t.parts :: FreePart(part)
  {
    SplitFree(piece, ';');
    PiecesFree(piece, ';');
  }

  /** The pieces that are read as topics. */
  lemma ReadPieces(key: string)
    requires IsKey(key)
    ensures ':' !in Split(key, ':')[0]
    ensures forall piece <- Split(Split(key, ':')[1], '-') :: ':' !in piece && '-' !in piece
  {
    var pcs := Split(key, ':');
    PiecesFree(key, ':');
    assert pcs[0] in pcs && pcs[1] in pcs;
    PiecesFree(pcs[1], '-');
  }

  lemma RenderedFree(t: Topic)
    requires if t.One? then FreePart(t.text) else t.AnyOf? && |t.parts| >= 2 && forall part <- t.parts :: FreePart(part)
    ensures ':' !in Render(t) && '-' !in Render(t)
  {
    if t.AnyOf? {
      InJoin(t.parts, ';', ':');
      InJoin(t.parts, ';', '-');
    }
  }

  lemma ReadsReadable(f: EventFilter)
    requires IsKey(FilterToKey(f)) && KeyToFilter(FilterToKey(f)) == f
    ensures ReadableFilter(f)
  {
    var pieces := Split(Split(FilterToKey(f), ':')[1], '-');
    var topics, texts := f.topics.value, Rendered(f.topics.value);
    ReadPieces(FilterToKey(f));
    forall i | 0 <= i < |topics|
      ensures ':' !in texts[i] && '-' !in texts[i]
    {
      assert pieces[i] in pieces;
      ReadTopic(pieces[i]);
      RenderedFree(topics[i]);
    }
    KeyPieces(f);
    forall t | t in topics
      ensures ReadableTopic(t)
    {
      var i :| 0 <= i < |topics| && topics[i] == t;
      assert pieces[i] in pieces && pieces[i] == Render(t);
      ReadTopic(pieces[i]);
    }
  }

  /** A filter is read back from its key if and only if it has no first block, and neither an empty part nor a separator in one. */
  lemma FilterRoundTripExact(f: EventFilter)
    ensures IsKey(FilterToKey(f))
    ensures KeyToFilter(FilterToKey(f)) == f <==> ReadableFilter(f)
  {
    KeysAreKeys(f);
    if ReadableFilter(f) {
      ReadableReads(f);
    } else if KeyToFilter(FilterToKey(f)) == f {
      ReadsReadable(f);
    }
  }
}
