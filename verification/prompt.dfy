/**
 * The eligibility check and prompt builder: it scans up to fifty records of
 * a fetched channel history, turns the ordinary ones into numbered prompt
 * lines and decides whether the bot may reply now.
 */
module PromptBuilder {
  import opened Wrappers
  import opened Text
  import opened Config

  /**
   * One record of the channel history. `kind` is the platform's message
   * type code; `authorId` is the author's id, if given; `mentions` holds the
   * id of each mentioned user, if given.
   */
  datatype Message = Message(
    kind: int,
    content: string,
    authorId: Option<string>,
    mentions: seq<Option<string>>)

  /** At most this many records of a history are scanned. */
  const ScanLimit: nat := 50
  /** Type code of an ordinary chat message. */
  const OrdinaryKind: int := 0
  /** Type code of a reply notification. */
  const ReplyKind: int := 19

  function Min(a: nat, b: nat): nat
  {
    if a <= b then a else b
  }

  /** Content free of the platform's markup characters. */
  predicate NoMarkup(content: string)
  {
    '<' !in content && '>' !in content && '@' !in content
  }

  /** An ordinary message without markup: it becomes a prompt line. */
  predicate Accepted(m: Message)
  {
    m.kind == OrdinaryKind && NoMarkup(m.content)
  }

  /** A reply notification that names at least one user. */
  predicate IsReplyNotice(m: Message)
  {
    m.kind == ReplyKind && |m.mentions| > 0
  }

  /**
   * The watched user shows up in record `m`: as the author of an accepted
   * message, or as the first user a reply notification mentions.
   */
  predicate WatchedIn(m: Message, dcId: Option<string>)
  {
    || (Accepted(m) && m.authorId == dcId)
    || (!Accepted(m) && IsReplyNotice(m) && m.mentions[0] == dcId)
  }

  /** The last `n` records of `ms`, last one first: the order of the scan. */
  function Newest(ms: seq<Message>, n: nat): seq<Message>
  {
    if n == 0 || ms == [] then [] else [ms[|ms| - 1]] + Newest(ms[..|ms| - 1], n - 1)
  }

  /** The records the builder visits, in visiting order. */
  function Window(ms: seq<Message>): seq<Message>
  {
    Newest(ms, ScanLimit)
  }

  /** The accepted records of `vs`, in order. */
  function Kept(vs: seq<Message>): seq<Message>
  {
    if vs == [] then []
    else Kept(vs[..|vs| - 1]) + (if Accepted(vs[|vs| - 1]) then [vs[|vs| - 1]] else [])
  }

  /** One prompt line: the ordinal in decimal, a colon, the content and a newline. */
  function Line(ordinal: nat, content: string): string
  {
    NatToString(ordinal) + ":" + content + "\n"
  }

  /**
   * The shape of a line: decimal digits that read back as the ordinal, a
   * colon, the content unchanged, and a closing newline.
   */
  lemma LineShape(ordinal: nat, content: string)
    ensures var r, d := Line(ordinal, content), |NatToString(ordinal)|;
      && |r| == d + |content| + 2
      && (forall i :: 0 <= i < d ==> IsDigit(r[i]))
      && DigitsValue(r[..d]) == ordinal
      && r[d] == ':'
      && r[d + 1..|r| - 1] == content
      && r[|r| - 1] == '\n'
  {
    var digits := NatToString(ordinal);
    NatToStringRoundTrip(ordinal);
    var r := Line(ordinal, content);
    assert r[..|digits|] == digits;
    assert r[|digits| + 1..|r| - 1] == content;
  }

  /** The lines for `ks`, numbered consecutively from `n`. */
  function Render(ks: seq<Message>, n: nat): string
  {
    if ks == [] then "" else Line(n, ks[0].content) + Render(ks[1..], n + 1)
  }

  /** The fixed opening words of every prompt, before the demand. */
  const PreambleLead: string :=
    "我这里有几十条聊天纪录依次给你列出来了，我想你帮我回复一句话，承接他们的内容，要求如下："

  /** The instruction that opens every prompt, embedding the demand and the reply language. */
  function Preamble(demand: string, chatLanguage: string): string
  {
    PreambleLead + demand + "，用" + chatLanguage + "回复\n"
  }

  /**
   * The shape of the preamble: the fixed lead, then the demand, then (after
   * a two-character joiner) the reply language, then a two-character closing
   * and a newline.
   */
  lemma PreambleShape(demand: string, chatLanguage: string)
    ensures var r := Preamble(demand, chatLanguage);
      && |r| == |PreambleLead| + |demand| + |chatLanguage| + 5
      && r[..|PreambleLead|] == PreambleLead
      && r[|PreambleLead|..|PreambleLead| + |demand|] == demand
      && r[|PreambleLead| + |demand| + 2..|r| - 3] == chatLanguage
      && r[|r| - 1] == '\n'
  {
  }

  /** The prompt built from history `ms`: it always opens with the preamble. */
  function Prompt(ms: seq<Message>, s: Settings): (r: string)
    ensures var p := Preamble(s.myDemand, ChatLanguage(s.language));
      |p| <= |r| && r[..|p|] == p
  {
    var p := Preamble(s.myDemand, ChatLanguage(s.language));
    var r := p + Render(Kept(Window(ms)), 1);
    assert r[..|p|] == p;
    r
  }

  /**
   * The reply flag after visiting `vs`, a fold that can only switch from
   * true to false: it is true whenever waiting is off, and false only when
   * the watched user shows up in some visited record.
   */
  function CanReply(vs: seq<Message>, s: Settings): (r: bool)
    ensures s.isWait != "yes" ==> r
    ensures !r ==> exists i :: 0 <= i < |vs| && WatchedIn(vs[i], s.dcId)
  {
    if vs == [] then true
    else
      var front := vs[..|vs| - 1];
      assert forall i :: 0 <= i < |front| ==> front[i] == vs[i];
      CanReply(front, s) && !(s.isWait == "yes" && WatchedIn(vs[|vs| - 1], s.dcId))
  }

  /**
   * The scan visits exactly min(n, |ms|) records, starting at the last one and
   * walking backward one position at a time.
   */
  lemma {:induction false} NewestIndices(ms: seq<Message>, n: nat)
    ensures |Newest(ms, n)| == Min(n, |ms|)
    ensures forall i :: 0 <= i < |Newest(ms, n)| ==> Newest(ms, n)[i] == ms[|ms| - 1 - i]
  {
    if n != 0 && ms != [] {
      var front := ms[..|ms| - 1];
      NewestIndices(front, n - 1);
      forall i | 0 <= i < |Newest(ms, n)|
        ensures Newest(ms, n)[i] == ms[|ms| - 1 - i]
      {
        if i > 0 {
          assert Newest(ms, n)[i] == Newest(front, n - 1)[i - 1];
        }
      }
    }
  }

  /** The window is exactly the last min(50, |ms|) records, from index |ms|-1 down to |ms|-min(50, |ms|). */
  lemma WindowIndices(ms: seq<Message>)
    ensures |Window(ms)| == Min(ScanLimit, |ms|)
    ensures forall i :: 0 <= i < |Window(ms)| ==> Window(ms)[i] == ms[|ms| - 1 - i]
  {
    NewestIndices(ms, ScanLimit);
  }

  /** Kept is a filter: it holds exactly the accepted records of `vs`. */
  lemma {:induction false} KeptFilters(vs: seq<Message>)
    ensures |Kept(vs)| <= |vs|
    ensures forall m :: m in Kept(vs) <==> m in vs && Accepted(m)
    ensures Kept(vs) == [] <==> forall i :: 0 <= i < |vs| ==> !Accepted(vs[i])
  {
    if vs != [] {
      var front := vs[..|vs| - 1];
      KeptFilters(front);
      assert vs == front + [vs[|vs| - 1]];
    }
  }

  /** Filtering distributes over concatenation, so visiting order is kept. */
  lemma {:induction false} KeptAppend(vs: seq<Message>, ws: seq<Message>)
    ensures Kept(vs + ws) == Kept(vs) + Kept(ws)
  {
    if ws == [] {
      assert vs + ws == vs;
    } else {
      var front := ws[..|ws| - 1];
      KeptAppend(vs, front);
      assert (vs + ws)[..|vs + ws| - 1] == vs + front;
    }
  }

  /** Rendering two runs of lines one after the other continues the numbering without gap. */
  lemma {:induction false} RenderAppend(ks: seq<Message>, ls: seq<Message>, n: nat)
    ensures Render(ks + ls, n) == Render(ks, n) + Render(ls, n + |ks|)
  {
    if ks == [] {
      assert ks + ls == ls;
      assert Render(ks, n) == "";
    } else {
      var head := Line(n, ks[0].content);
      var rest := ks[1..] + ls;
      assert ks + ls == [ks[0]] + rest;
      assert (ks + ls)[0] == ks[0] && (ks + ls)[1..] == rest;
      RenderAppend(ks[1..], ls, n + 1);
      assert Render(ks + ls, n) == head + Render(rest, n + 1);
      assert Render(ks, n) == head + Render(ks[1..], n + 1);
    }
  }

  /** Appending one accepted record adds one line carrying the next ordinal. */
  lemma RenderSnoc(ks: seq<Message>, m: Message, n: nat)
    ensures Render(ks + [m], n) == Render(ks, n) + Line(n + |ks|, m.content)
  {
    RenderAppend(ks, [m], n);
    assert [m][1..] == [];
    assert Render([m], n + |ks|) == Line(n + |ks|, m.content) + "";
  }

  /** Visiting one more record extends the filtered sequence by that record when it is accepted. */
  lemma KeptStep(vs: seq<Message>, i: nat)
    requires i < |vs|
    ensures Kept(vs[..i + 1]) == Kept(vs[..i]) + (if Accepted(vs[i]) then [vs[i]] else [])
  {
    assert vs[..i + 1][..i] == vs[..i];
  }

  /** Visiting one more record clears the flag exactly when waiting is on and the watched user shows up in it. */
  lemma CanReplyStep(vs: seq<Message>, i: nat, s: Settings)
    requires i < |vs|
    ensures CanReply(vs[..i + 1], s) == (CanReply(vs[..i], s) && !(s.isWait == "yes" && WatchedIn(vs[i], s.dcId)))
  {
    assert vs[..i + 1][..i] == vs[..i];
  }

  /** The j-th accepted record (from 0) is written as the line numbered j+1. */
  lemma RenderOrdinal(ks: seq<Message>, j: nat)
    requires j < |ks|
    ensures Render(ks, 1) == Render(ks[..j], 1) + Line(j + 1, ks[j].content) + Render(ks[j + 1..], j + 2)
  {
    var tail := [ks[j]] + ks[j + 1..];
    assert ks == ks[..j] + tail;
    RenderAppend(ks[..j], tail, 1);
    assert tail[0] == ks[j] && tail[1..] == ks[j + 1..];
    assert Render(tail, j + 1) == Line(j + 1, ks[j].content) + Render(ks[j + 1..], j + 2);
  }

  /**
   * Without an accepted record in the window the prompt is the preamble
   * alone; on an empty history the bot may also reply.
   */
  lemma PromptWithoutAccepted(ms: seq<Message>, s: Settings)
    requires forall i :: 0 <= i < |Window(ms)| ==> !Accepted(Window(ms)[i])
    ensures Prompt(ms, s) == Preamble(s.myDemand, ChatLanguage(s.language))
    ensures ms == [] ==> CanReply(Window(ms), s)
  {
    var vs := Window(ms);
    KeptFilters(vs);
  }

  /**
   * The flag is false exactly when waiting is on and the watched user shows
   * up somewhere in the visited records; with waiting off it is always true.
   */
  lemma {:induction false} CanReplyExactly(vs: seq<Message>, s: Settings)
    ensures CanReply(vs, s) <==>
      s.isWait != "yes" || forall i :: 0 <= i < |vs| ==> !WatchedIn(vs[i], s.dcId)
    ensures s.isWait != "yes" ==> CanReply(vs, s)
  {
    if vs != [] {
      var front := vs[..|vs| - 1];
      CanReplyExactly(front, s);
      assert forall i :: 0 <= i < |front| ==> front[i] == vs[i];
    }
  }

  /** Once the flag is false, visiting further records never sets it back. */
  lemma {:induction false} CanReplyNeverResets(vs: seq<Message>, ws: seq<Message>, s: Settings)
    requires !CanReply(vs, s)
    ensures !CanReply(vs + ws, s)
  {
    if ws == [] {
      assert vs + ws == vs;
    } else {
      CanReplyNeverResets(vs, ws[..|ws| - 1], s);
      assert (vs + ws)[..|vs + ws| - 1] == vs + ws[..|ws| - 1];
    }
  }

  /**
   * Small windows: an ordinary message from someone else becomes line 1 and
   * leaves the bot free to reply; the same message from the watched user
   * holds the bot off; a message with mention markup adds no line.
   */
  lemma PromptExamples(s: Settings)
    requires s.isWait == "yes" && s.dcId == Some("B")
    ensures var ms := [Message(OrdinaryKind, "hi", Some("A"), [])];
      Prompt(ms, s) == Preamble(s.myDemand, ChatLanguage(s.language)) + "1:hi\n" && CanReply(Window(ms), s)
    ensures !CanReply(Window([Message(OrdinaryKind, "hi", Some("B"), [])]), s)
    ensures var ms := [Message(OrdinaryKind, "<@123> hi", Some("A"), [])];
      Prompt(ms, s) == Preamble(s.myDemand, ChatLanguage(s.language))
  {
    var m := Message(OrdinaryKind, "hi", Some("A"), []);
    WindowIndices([m]);
    assert Kept(Window([m])) == [m];
    assert NatToString(1) == "1";
    assert Render([m], 1) == "1:hi\n";
    var w := Message(OrdinaryKind, "hi", Some("B"), []);
    WindowIndices([w]);
    assert WatchedIn(w, s.dcId);
    var x := Message(OrdinaryKind, "<@123> hi", Some("A"), []);
    assert "<@123> hi"[0] == '<';
    PromptWithoutAccepted([x], s);
  }

  /**
   * The builder: walks from the last record backward over at most fifty
   * records, numbering the accepted ones into the prompt and clearing the
   * reply flag when the watched user shows up while waiting is on.
   */
  method PreparePrompt(messages: seq<Message>, s: Settings) returns (prompt: string, canReply: bool)
    ensures prompt == Prompt(messages, s)
    ensures canReply == CanReply(Window(messages), s)
  {
    prompt := Preamble(s.myDemand, ChatLanguage(s.language));
    var messageCount: nat := 0;
    canReply := true;
    ghost var vs := Window(messages);
    WindowIndices(messages);
    var n := Min(ScanLimit, |messages|);
    var i := 0;
    while i < n
      invariant 0 <= i <= n
      invariant messageCount == |Kept(vs[..i])|
      invariant prompt == Preamble(s.myDemand, ChatLanguage(s.language)) + Render(Kept(vs[..i]), 1)
      invariant canReply == CanReply(vs[..i], s)
    {
      var m := messages[|messages| - i - 1];  // negative index -(i+1) from the end
      assert m == vs[i];
      KeptStep(vs, i);
      CanReplyStep(vs, i, s);
      assert !Accepted(m) ==> Kept(vs[..i + 1]) == Kept(vs[..i]);
      if m.kind == OrdinaryKind && NoMarkup(m.content) {
        RenderSnoc(Kept(vs[..i]), m, 1);
        messageCount := messageCount + 1;
        if s.isWait == "yes" && m.authorId == s.dcId {
          canReply := false;
        }
        prompt := prompt + Line(messageCount, m.content);
        assert prompt == Preamble(s.myDemand, ChatLanguage(s.language))
          + (Render(Kept(vs[..i]), 1) + Line(messageCount, m.content));
      } else if m.kind == ReplyKind && |m.mentions| > 0 {
        if s.isWait == "yes" && m.mentions[0] == s.dcId {
          canReply := false;
        }
      }
      i := i + 1;
    }
    assert vs[..i] == vs;
  }
}
