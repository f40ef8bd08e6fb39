/** Prompt assembly that keeps data apart from instructions: every non-SYSTEM segment is wrapped in a
    fence keyed by a nonce, with its text and source label escaped. */
module Isolation {
  import opened Common

  datatype Channel = System | User | Tool | Retrieved

  datatype Trust = Trusted | Untrusted

  datatype Segment = Segment(channel: Channel, source: string, trust: Trust, text: string, signature: string)

  datatype Refusal = EmptyLabel | UntrustedSystem | TrustedUser | TrustedRetrieved | UnsignedTool | EmptyNonce

  datatype Entry = Entry(channel: Channel, source: string, trust: Trust, signature: string)

  datatype Prompt = Prompt(text: string, nonce: string, audit: seq<Entry>)

  // ----- admission -----

  /** The checks a segment passes when it is built, in the order they are made. */
  function Admit(s: Segment): (r: Result<Segment, Refusal>)
    ensures r.Ok? ==> r.value == s
  {
    if s.source == "" then Err(EmptyLabel)
    else if s.channel == System && s.trust != Trusted then Err(UntrustedSystem)
    else if s.channel == User && s.trust != Untrusted then Err(TrustedUser)
    else if s.channel == Retrieved && s.trust != Untrusted then Err(TrustedRetrieved)
    else if s.channel == Tool && s.trust == Trusted && s.signature == "" then Err(UnsignedTool)
    else Ok(s)
  }

  /** A segment is admitted exactly with a label and the trust its channel may have: SYSTEM is trusted, USER and
      RETRIEVED are not, and TOOL is only with a signature. Each refusal names what is wrong. */
  lemma {:induction false} AdmittedTrust(s: Segment)
    ensures var trusted := s.trust == Trusted;
      var fits := match s.channel
        case System => trusted
        case User => !trusted
        case Retrieved => !trusted
        case Tool => !trusted || s.signature != "";
      Admit(s).Ok? <==> s.source != "" && fits
    ensures Admit(s).Err? ==>
      match Admit(s).error
      case EmptyLabel => s.source == ""
      case UntrustedSystem => s.channel == System && s.trust == Untrusted
      case TrustedUser => s.channel == User && s.trust == Trusted
      case TrustedRetrieved => s.channel == Retrieved && s.trust == Trusted
      case UnsignedTool => s.channel == Tool && s.trust == Trusted && s.signature == ""
      case EmptyNonce => false
  {}

  // ----- escaping -----

  /** `text` with every `raw` replaced by `esc`. */
  function Replace(text: string, raw: char, esc: string): string {
    if text == "" then ""
    else (if text[0] == raw then esc else [text[0]]) + Replace(text[1..], raw, esc)
  }

  function EscapedChar(c: char): string {
    if c == '&' then "&amp;" else if c == '<' then "&lt;" else if c == '>' then "&gt;" else [c]
  }

  /** The character-by-character reading of the three replacements. */
  function Escaped(text: string): string {
    if text == "" then "" else EscapedChar(text[0]) + Escaped(text[1..])
  }

  lemma ConcatAssoc(a: string, b: string, c: string)
    ensures (a + b) + c == a + (b + c)
  {}

  lemma {:induction false} ReplaceConcat(a: string, b: string, raw: char, esc: string)
    ensures Replace(a + b, raw, esc) == Replace(a, raw, esc) + Replace(b, raw, esc)
  {
    if a == "" {
      assert a + b == b;
    } else {
      ReplaceConcat(a[1..], b, raw, esc);
      assert (a + b)[1..] == a[1..] + b;
      ConcatAssoc(if a[0] == raw then esc else [a[0]], Replace(a[1..], raw, esc), Replace(b, raw, esc));
    }
  }

  lemma {:induction false} ReplaceAbsent(a: string, raw: char, esc: string)
    requires raw !in a
    ensures Replace(a, raw, esc) == a
  {
    if a != "" {
      ReplaceAbsent(a[1..], raw, esc);
    }
  }

  function ReplaceThrice(text: string): string {
    Replace(Replace(Replace(text, '&', "&amp;"), '<', "&lt;"), '>', "&gt;")
  }

  lemma ReplaceOne(c: char, raw: char, esc: string)
    ensures Replace([c], raw, esc) == if c == raw then esc else [c]
  {
    assert [c][1..] == "";
    assert Replace("", raw, esc) == "";
  }

  lemma ReplaceThriceChar(c: char)
    ensures ReplaceThrice([c]) == EscapedChar(c)
  {
    ReplaceOne(c, '&', "&amp;");
    ReplaceOne(c, '<', "&lt;");
    ReplaceOne(c, '>', "&gt;");
    ReplaceAbsent("&amp;", '<', "&lt;");
    ReplaceAbsent("&amp;", '>', "&gt;");
    ReplaceAbsent("&lt;", '>', "&gt;");
  }

  /** Replacing `&` first, then `<`, then `>`, escapes each character once and no replacement twice. */
  lemma {:induction false} ReplacementsEscape(text: string)
    ensures ReplaceThrice(text) == Escaped(text)
  {
    if text != "" {
      var head, tail := [text[0]], text[1..];
      assert text == head + tail;
      var amp := Replace(head, '&', "&amp;");
      var less := Replace(amp, '<', "&lt;");
      ReplaceConcat(head, tail, '&', "&amp;");
      ReplaceConcat(amp, Replace(tail, '&', "&amp;"), '<', "&lt;");
      ReplaceConcat(less, Replace(Replace(tail, '&', "&amp;"), '<', "&lt;"), '>', "&gt;");
      ReplaceThriceChar(text[0]);
      ReplacementsEscape(tail);
    }
  }

  const ESCAPES: seq<(char, string)> := [('&', "&amp;"), ('<', "&lt;"), ('>', "&gt;")]

  method Escape(text: string) returns (r: string)
    ensures r == Escaped(text)
  {
    r := text;
    for i := 0 to |ESCAPES|
      invariant i == 0 ==> r == text
      invariant i == 1 ==> r == Replace(text, '&', "&amp;")
      invariant i == 2 ==> r == Replace(Replace(text, '&', "&amp;"), '<', "&lt;")
      invariant i == 3 ==> r == ReplaceThrice(text)
    {
      r := Replace(r, ESCAPES[i].0, ESCAPES[i].1);
    }
    ReplacementsEscape(text);
  }

  ghost predicate Inert(s: string) {
    '<' !in s && '>' !in s
  }

  /** Escaped text cannot open or close a fence. */
  lemma {:induction false} EscapedIsInert(text: string)
    ensures Inert(Escaped(text))
  {
    if text != "" {
      EscapedIsInert(text[1..]);
    }
  }

  /** Undo the escaping. */
  function Unescaped(s: string): string {
    if s == "" then ""
    else if "&amp;" <= s then ['&'] + Unescaped(s[5..])
    else if "&lt;" <= s then ['<'] + Unescaped(s[4..])
    else if "&gt;" <= s then ['>'] + Unescaped(s[4..])
    else [s[0]] + Unescaped(s[1..])
  }

  lemma {:induction false} UnescapeInverts(text: string)
    ensures Unescaped(Escaped(text)) == text
  {
    if text != "" {
      UnescapeInverts(text[1..]);
      var first, rest := EscapedChar(text[0]), Escaped(text[1..]);
      var s := first + rest;
      assert s[|first|..] == rest;
      assert first <= s;
      if |first| == 1 {
        assert s[0] == text[0] != '&';
      } else if text[0] == '<' {
        assert s[1] == 'l';
      } else if text[0] == '>' {
        assert s[1] == 'g';
      }
    }
  }

  // ----- rendering -----

  function ChannelName(c: Channel): string {
    match c
    case System => "system"
    case User => "user"
    case Tool => "tool"
    case Retrieved => "retrieved"
  }

  function TrustName(t: Trust): string {
    match t
    case Trusted => "trusted"
    case Untrusted => "untrusted"
  }

  function FenceStart(nonce: string): string {
    "<<wt-iso:" + nonce + ":"
  }

  function Lead(c: Channel): string {
    ChannelName(c) + " source=\""
  }

  function Tail(t: Trust): string {
    "\" trust=\"" + TrustName(t) + "\""
  }

  /** What stands between a fence's nonce and its closing brackets. */
  function HeaderText(c: Channel, shown: string, t: Trust): string {
    Lead(c) + shown + Tail(t)
  }

  function Header(s: Segment): string {
    HeaderText(s.channel, Escaped(s.source), s.trust)
  }

  function CloseMarker(nonce: string): string {
    FenceStart(nonce) + "end>>"
  }

  function ChunksOf(s: Segment, nonce: string): seq<string> {
    if s.channel == System then [s.text]
    else [FenceStart(nonce) + Header(s) + ">>", Escaped(s.text), CloseMarker(nonce)]
  }

  function Chunks(segments: seq<Segment>, nonce: string): seq<string> {
    if segments == [] then []
    else Chunks(segments[..|segments| - 1], nonce) + ChunksOf(segments[|segments| - 1], nonce)
  }

  function JoinLines(lines: seq<string>): string {
    if lines == [] then ""
    else if |lines| == 1 then lines[0]
    else lines[0] + "\n" + JoinLines(lines[1..])
  }

  function Rendered(segments: seq<Segment>, nonce: string): string {
    JoinLines(Chunks(segments, nonce))
  }

  function EntryOf(s: Segment): Entry {
    Entry(s.channel, s.source, s.trust, s.signature)
  }

  /** `nonce` is the caller's choice if any, `drawn` the one drawn for it otherwise. */
  method AssembleIsolatedPrompt(segments: seq<Segment>, nonce: Option<string>, drawn: string)
    returns (r: Result<Prompt, Refusal>)
    ensures r.Err? <==> nonce == Some("")
    ensures r.Err? ==> r.error == EmptyNonce
    ensures r.Ok? ==> r.value.nonce == if nonce.Some? then nonce.value else drawn
    ensures r.Ok? ==> r.value.text == Rendered(segments, r.value.nonce)
    ensures r.Ok? ==> |r.value.audit| == |segments|
    ensures r.Ok? ==> forall i :: 0 <= i < |segments| ==>
      r.value.audit[i] == Entry(segments[i].channel, segments[i].source, segments[i].trust, segments[i].signature)
  {
    hide HeaderText, FenceStart, CloseMarker, Escaped, JoinLines, Replace, ReplaceThrice;
    if nonce == Some("") {
      return Err(EmptyNonce);
    }
    var chosen := if nonce.Some? then nonce.value else drawn;
    var chunks: seq<string> := [];
    var audit: seq<Entry> := [];
    for i := 0 to |segments|
      invariant chunks == Chunks(segments[..i], chosen)
      invariant |audit| == i
      invariant forall j :: 0 <= j < i ==> audit[j] == EntryOf(segments[j])
    {
      var s := segments[i];
      assert segments[..i + 1][..i] == segments[..i];
      audit := audit + [EntryOf(s)];
      if s.channel == System {
        chunks := chunks + [s.text];
        continue;
      }
      var source := Escape(s.source);
      var text := Escape(s.text);
      var opening := FenceStart(chosen) + HeaderText(s.channel, source, s.trust) + ">>";
      chunks := chunks + [opening] + [text] + [CloseMarker(chosen)];
    }
    assert segments[..|segments|] == segments;
    r := Ok(Prompt(JoinLines(chunks), chosen, audit));
  }

  // ----- reading a rendering back -----

  /** The part of a segment that its rendering shows. */
  datatype Block = Block(channel: Channel, source: string, trust: Trust, text: string)

  function BlockOf(s: Segment): Block {
    Block(s.channel, s.source, s.trust, s.text)
  }

  function BlocksOf(segments: seq<Segment>): seq<Block> {
    seq(|segments|, i requires 0 <= i < |segments| => BlockOf(segments[i]))
  }

  /** The characters of `s` before the first `c`. */
  function UpTo(c: char, s: string): (r: string)
    ensures |r| <= |s|
  {
    if s == "" || s[0] == c then "" else [s[0]] + UpTo(c, s[1..])
  }

  predicate EndsWith(s: string, suffix: string) {
    |suffix| <= |s| && s[|s| - |suffix|..] == suffix
  }

  /** A label may itself hold quotation marks, so the trust is read off the header's end. */
  function ReadTrust(header: string): Option<Trust> {
    if EndsWith(header, Tail(Trusted)) then Some(Trusted)
    else if EndsWith(header, Tail(Untrusted)) then Some(Untrusted)
    else None
  }

  function ReadChannel(header: string): Option<Channel> {
    if Lead(User) <= header then Some(User)
    else if Lead(Tool) <= header then Some(Tool)
    else if Lead(Retrieved) <= header then Some(Retrieved)
    else None
  }

  function ReadHeader(header: string): Option<(Channel, string, Trust)> {
    var channel, trust := ReadChannel(header), ReadTrust(header);
    if channel.None? || trust.None? then None
    else if |Lead(channel.value)| + |Tail(trust.value)| > |header| then None
    else
      var shown := header[|Lead(channel.value)|..|header| - |Tail(trust.value)|];
      Some((channel.value, Unescaped(shown), trust.value))
  }

  /** A fence's text from just after its opening line, and what follows the fence. */
  function ReadBody(nonce: string, s: string): (r: Option<(string, string)>)
    ensures r.Some? ==> |r.value.1| < |s|
  {
    var body := UpTo('<', s);
    var closing := s[|body|..];
    if body == "" || body[|body| - 1] != '\n' || !(CloseMarker(nonce) <= closing) then None
    else Some((Unescaped(body[..|body| - 1]), closing[|CloseMarker(nonce)|..]))
  }

  /** One fenced block at the start of `s`, and what follows it. */
  function ReadBlock(nonce: string, s: string): (r: Option<(Block, string)>)
    ensures r.Some? ==> |r.value.1| < |s|
  {
    if !(FenceStart(nonce) <= s) then None
    else
      var inside := s[|FenceStart(nonce)|..];
      var header := UpTo('>', inside);
      var afterHeader := inside[|header|..];
      var attributes := ReadHeader(header);
      if !(">>\n" <= afterHeader) || attributes.None? then None
      else
        var body := ReadBody(nonce, afterHeader[3..]);
        if body.None? then None
        else
          var (channel, source, trust) := attributes.value;
          Some((Block(channel, source, trust, body.value.0), body.value.1))
  }

  function Read(nonce: string, s: string): Option<seq<Block>>
    decreases |s|
  {
    if s == "" then Some([])
    else
      var first := ReadBlock(nonce, s);
      if first.None? then None
      else if first.value.1 == "" then Some([first.value.0])
      else if first.value.1[0] != '\n' then None
      else
        var others := Read(nonce, first.value.1[1..]);
        if others.None? then None else Some([first.value.0] + others.value)
  }

  lemma {:induction false} UpToFirst(c: char, before: string, rest: string)
    requires c !in before
    ensures UpTo(c, before + [c] + rest) == before
  {
    var s := before + [c] + rest;
    if before == "" {
      assert s[0] == c;
    } else {
      UpToFirst(c, before[1..], rest);
      assert s[1..] == before[1..] + [c] + rest;
    }
  }

  lemma InertConcat(a: string, b: string)
    requires Inert(a) && Inert(b)
    ensures Inert(a + b)
  {}

  lemma HeaderIsInert(s: Segment)
    ensures Inert(Header(s))
  {
    EscapedIsInert(s.source);
    hide Escaped;
    assert Inert(Lead(s.channel)) && Inert(Tail(s.trust));
    hide Lead, Tail, Inert;
    InertConcat(Lead(s.channel), Escaped(s.source));
    InertConcat(Lead(s.channel) + Escaped(s.source), Tail(s.trust));
  }

  lemma OneTailOnly(header: string)
    requires EndsWith(header, Tail(Untrusted))
    ensures !EndsWith(header, Tail(Trusted))
  {
    var long, short := Tail(Untrusted), Tail(Trusted);
    assert long[|long| - 9] == 'n' && short[|short| - 9] == '"';
    assert header[|header| - |long|..][|long| - 9] == header[|header| - 9];
    assert |header| >= |short| && header[|header| - |short|..][|short| - 9] == header[|header| - 9];
  }

  lemma HeaderReads(s: Segment)
    requires s.channel != System
    ensures ReadHeader(Header(s)) == Some((s.channel, s.source, s.trust))
  {
    hide Escaped, Unescaped, EndsWith;
    var lead, shown, tail := Lead(s.channel), Escaped(s.source), Tail(s.trust);
    var header := Header(s);
    assert header == lead + shown + tail;
    assert lead <= header && header[0] == lead[0];
    TailEnds(lead + shown, tail);
    if s.trust == Untrusted {
      OneTailOnly(header);
    }
    assert header[|lead|..|header| - |tail|] == shown;
    UnescapeInverts(s.source);
  }

  lemma TailEnds(s: string, tail: string)
    ensures EndsWith(s + tail, tail)
  {}

  lemma ReadBodyInverts(nonce: string, text: string, rest: string)
    ensures ReadBody(nonce, Escaped(text) + "\n" + CloseMarker(nonce) + rest) == Some((text, rest))
  {
    hide Escaped, Unescaped, UpTo;
    var body, close := Escaped(text) + "\n", CloseMarker(nonce);
    var s := Escaped(text) + "\n" + close + rest;
    EscapedIsInert(text);
    var closing := close + rest;
    assert closing == ['<'] + closing[1..];
    assert s == body + ['<'] + closing[1..];
    UpToFirst('<', body, closing[1..]);
    assert s[|body|..] == closing;
    assert closing[|close|..] == rest;
    assert body[..|body| - 1] == Escaped(text);
    UnescapeInverts(text);
  }

  function BlockText(s: Segment, nonce: string): string {
    FenceStart(nonce) + Header(s) + ">>\n" + Escaped(s.text) + "\n" + CloseMarker(nonce)
  }

  lemma DropFront(a: string, b: string)
    ensures a <= a + b && (a + b)[|a|..] == b
  {}

  lemma BlockSplits(s: Segment, nonce: string, rest: string)
    ensures var body := Escaped(s.text) + "\n" + CloseMarker(nonce) + rest;
      BlockText(s, nonce) + rest == FenceStart(nonce) + (Header(s) + (">>\n" + body))
  {
    hide Escaped, Header, FenceStart, CloseMarker;
  }

  /** Whatever follows it, a fenced segment reads back as itself. */
  lemma ReadBlockInverts(s: Segment, nonce: string, rest: string)
    requires s.channel != System
    ensures ReadBlock(nonce, BlockText(s, nonce) + rest) == Some((BlockOf(s), rest))
  {
    hide Escaped, UpTo, ReadHeader, ReadBody, Header, FenceStart, CloseMarker, BlockText;
    var header := Header(s);
    var body := Escaped(s.text) + "\n" + CloseMarker(nonce) + rest;
    var afterHeader := ">>\n" + body;
    BlockSplits(s, nonce, rest);
    DropFront(FenceStart(nonce), header + afterHeader);
    HeaderIsInert(s);
    assert header + afterHeader == header + ['>'] + afterHeader[1..];
    UpToFirst('>', header, afterHeader[1..]);
    DropFront(header, afterHeader);
    DropFront(">>\n", body);
    HeaderReads(s);
    ReadBodyInverts(nonce, s.text, rest);
  }

  function SegmentText(s: Segment, nonce: string): string {
    if s.channel == System then s.text else BlockText(s, nonce)
  }

  // The rendering taken segment by segment.
  function SegmentTexts(segments: seq<Segment>, nonce: string): string {
    if segments == [] then ""
    else if |segments| == 1 then SegmentText(segments[0], nonce)
    else SegmentText(segments[0], nonce) + "\n" + SegmentTexts(segments[1..], nonce)
  }

  lemma {:induction false} JoinConcat(a: seq<string>, b: seq<string>)
    requires a != [] && b != []
    ensures JoinLines(a + b) == JoinLines(a) + "\n" + JoinLines(b)
  {
    if |a| == 1 {
      assert (a + b)[1..] == b;
    } else {
      JoinConcat(a[1..], b);
      assert (a + b)[1..] == a[1..] + b;
    }
  }

  lemma {:induction false} ChunksCons(segments: seq<Segment>, nonce: string)
    requires segments != []
    ensures Chunks(segments, nonce) == ChunksOf(segments[0], nonce) + Chunks(segments[1..], nonce)
  {
    hide ChunksOf;
    if |segments| > 1 {
      ChunksCons(segments[..|segments| - 1], nonce);
      assert segments[1..][..|segments| - 2] == segments[..|segments| - 1][1..];
    }
  }

  lemma JoinBlock(s: Segment, nonce: string)
    requires s.channel != System
    ensures JoinLines(ChunksOf(s, nonce)) == BlockText(s, nonce)
  {
    hide Escaped, Header, FenceStart, CloseMarker;
    var opening, text, close := FenceStart(nonce) + Header(s) + ">>", Escaped(s.text), CloseMarker(nonce);
    assert [opening, text, close][1..] == [text, close];
    assert [text, close][1..] == [close];
    assert JoinLines([text, close]) == text + "\n" + close;
    assert JoinLines([opening, text, close]) == opening + "\n" + (text + "\n" + close);
    assert ">>" + "\n" == ">>\n";
  }

  lemma JoinSegment(s: Segment, nonce: string)
    ensures JoinLines(ChunksOf(s, nonce)) == SegmentText(s, nonce)
  {
    hide BlockText;
    if s.channel != System {
      JoinBlock(s, nonce);
    }
  }

  lemma {:induction false} RenderedIsSegmentTexts(segments: seq<Segment>, nonce: string)
    ensures Rendered(segments, nonce) == SegmentTexts(segments, nonce)
  {
    hide SegmentText;
    if segments != [] {
      ChunksCons(segments, nonce);
      JoinSegment(segments[0], nonce);
      if |segments| == 1 {
        var chunks := ChunksOf(segments[0], nonce);
        assert segments[1..] == [] && chunks + [] == chunks;
      } else {
        ChunksCons(segments[1..], nonce);
        RenderedIsSegmentTexts(segments[1..], nonce);
        JoinConcat(ChunksOf(segments[0], nonce), Chunks(segments[1..], nonce));
      }
    }
  }

  lemma {:induction false} ReadInverts(segments: seq<Segment>, nonce: string)
    requires forall s :: s in segments ==> s.channel != System
    ensures Read(nonce, SegmentTexts(segments, nonce)) == Some(BlocksOf(segments))
  {
    hide BlockText, ReadBlock;
    if segments != [] {
      BlockTextStarts(segments[0], nonce);
      if |segments| == 1 {
        ReadBlockInverts(segments[0], nonce, "");
        assert BlockText(segments[0], nonce) + "" == BlockText(segments[0], nonce);
        assert BlocksOf(segments) == [BlockOf(segments[0])];
      } else {
        var others := SegmentTexts(segments[1..], nonce);
        ReadBlockInverts(segments[0], nonce, "\n" + others);
        assert BlockText(segments[0], nonce) + ("\n" + others) == SegmentTexts(segments, nonce);
        ReadInverts(segments[1..], nonce);
        assert ("\n" + others)[1..] == others;
        assert BlocksOf(segments) == [BlockOf(segments[0])] + BlocksOf(segments[1..]);
      }
    }
  }

  lemma BlockTextStarts(s: Segment, nonce: string)
    ensures BlockText(s, nonce) != ""
  {
    assert |BlockText(s, nonce)| >= |FenceStart(nonce)|;
  }

  /** Reading a rendering with its nonce recovers every channel, label, trust and text, whatever the
      labels, texts and nonce hold. */
  lemma RenderingIsInvertible(segments: seq<Segment>, nonce: string)
    requires forall s :: s in segments ==> s.channel != System
    ensures Read(nonce, Rendered(segments, nonce)) == Some(BlocksOf(segments))
  {
    RenderedIsSegmentTexts(segments, nonce);
    ReadInverts(segments, nonce);
  }

  /** A block that reads back as trusted stands for a TOOL segment with a signature, which the audit log of the
      same assembly holds at the same place. */
  lemma {:induction false} TrustedBlocksAreSigned(
    segments: seq<Segment>, prompt: Prompt, blocks: seq<Block>, i: nat)
    requires forall s :: s in segments ==> s.channel != System && Admit(s).Ok?
    requires prompt.text == Rendered(segments, prompt.nonce) && |prompt.audit| == |segments|
    requires forall k :: 0 <= k < |segments| ==> prompt.audit[k] == EntryOf(segments[k])
    requires Read(prompt.nonce, prompt.text) == Some(blocks) && i < |blocks|
    ensures |blocks| == |prompt.audit|
    ensures blocks[i].trust == Trusted <==> prompt.audit[i].trust == Trusted
    ensures blocks[i].trust == Trusted ==> blocks[i].channel == Tool && prompt.audit[i].signature != ""
  {
    RenderingIsInvertible(segments, prompt.nonce);
    assert segments[i] in segments;
    AdmittedTrust(segments[i]);
  }

  lemma RenderingIsInjective(a: seq<Segment>, b: seq<Segment>, nonce: string)
    requires forall s :: s in a + b ==> s.channel != System
    requires Rendered(a, nonce) == Rendered(b, nonce)
    ensures BlocksOf(a) == BlocksOf(b)
  {
    forall s | s in a || s in b ensures s.channel != System {
      assert s in a + b;
    }
    RenderingIsInvertible(a, nonce);
    RenderingIsInvertible(b, nonce);
  }

  /** SYSTEM text is not fenced: one that spells out a fence renders as that fence does. */
  lemma SystemTextIsNotFenced(s: Segment, nonce: string)
    requires s.channel != System
    ensures Rendered([Segment(System, s.source, Trusted, BlockText(s, nonce), "")], nonce) == Rendered([s], nonce)
  {
    RenderedIsSegmentTexts([s], nonce);
    var system := Segment(System, s.source, Trusted, BlockText(s, nonce), "");
    ChunksCons([system], nonce);
    assert Chunks([system], nonce) == [system.text];
  }

  /** What one segment renders as: SYSTEM text as it stands, any other in its fence. */
  lemma {:induction false} RenderedAlone(s: Segment, nonce: string)
    ensures var name := match s.channel case System => "system" case User => "user" case Tool => "tool"
        case Retrieved => "retrieved";
      var trust := if s.trust == Trusted then "trusted" else "untrusted";
      var opening := "<<wt-iso:" + nonce + ":" + (name + " source=\"" + Escaped(s.source)
        + ("\" trust=\"" + trust + "\"")) + ">>\n";
      Rendered([s], nonce) ==
        if s.channel == System then s.text
        else opening + Escaped(s.text) + "\n" + ("<<wt-iso:" + nonce + ":" + "end>>")
  {
    RenderedIsSegmentTexts([s], nonce);
    hide Escaped, Rendered;
  }

  lemma {:induction false} ChunksAppend(a: seq<Segment>, b: seq<Segment>, nonce: string)
    ensures Chunks(a + b, nonce) == Chunks(a, nonce) + Chunks(b, nonce)
  {
    hide ChunksOf;
    if b == [] {
      assert a + b == a;
    } else {
      ChunksAppend(a, b[..|b| - 1], nonce);
      assert (a + b)[..|a + b| - 1] == a + b[..|b| - 1];
    }
  }

  lemma ChunksNotEmpty(segments: seq<Segment>, nonce: string)
    requires segments != []
    ensures Chunks(segments, nonce) != []
  {
    assert ChunksOf(segments[|segments| - 1], nonce) != [];
  }

  /** And a list renders segment after segment, in order, a line break between. */
  lemma {:induction false} RenderedInOrder(a: seq<Segment>, b: seq<Segment>, nonce: string)
    requires a != [] && b != []
    ensures Rendered(a + b, nonce) == Rendered(a, nonce) + "\n" + Rendered(b, nonce)
  {
    hide Chunks, JoinLines;
    ChunksAppend(a, b, nonce);
    ChunksNotEmpty(a, nonce);
    ChunksNotEmpty(b, nonce);
    JoinConcat(Chunks(a, nonce), Chunks(b, nonce));
  }

  // ----- prompts with SYSTEM text -----

  function Fenced(segments: seq<Segment>): seq<Segment> {
    if segments == [] then []
    else if segments[0].channel == System then Fenced(segments[1..])
    else [segments[0]] + Fenced(segments[1..])
  }

  /** Read the fences of a prompt, skipping to the next opening bracket each time. */
  function ReadFences(nonce: string, s: string): Option<seq<Block>>
    decreases |s|
  {
    var rest := s[|UpTo('<', s)|..];
    if rest == "" then Some([])
    else
      var first := ReadBlock(nonce, rest);
      if first.None? then None
      else
        var others := ReadFences(nonce, first.value.1);
        if others.None? then None else Some([first.value.0] + others.value)
  }

  lemma {:induction false} UpToNone(c: char, s: string)
    requires c !in s
    ensures UpTo(c, s) == s
  {
    if s != "" {
      UpToNone(c, s[1..]);
    }
  }

  lemma BlockOpens(s: Segment, nonce: string)
    ensures BlockText(s, nonce) != "" && BlockText(s, nonce)[0] == '<'
  {
    hide Escaped, Header;
    assert FenceStart(nonce)[0] == '<';
  }

  /** Skipping text without an opening bracket changes nothing before a fence. */
  lemma SkipsTo(nonce: string, skipped: string, s: string)
    requires '<' !in skipped && s != "" && s[0] == '<'
    ensures (skipped + s)[|UpTo('<', skipped + s)|..] == s
  {
    hide UpTo;
    assert skipped + s == skipped + ['<'] + s[1..];
    UpToFirst('<', skipped, s[1..]);
  }

  lemma ReadsOne(nonce: string, skipped: string, s: Segment, rest: string)
    requires '<' !in skipped && s.channel != System
    ensures ReadFences(nonce, skipped + (BlockText(s, nonce) + rest)) ==
      if ReadFences(nonce, rest).None? then None else Some([BlockOf(s)] + ReadFences(nonce, rest).value)
  {
    hide BlockText, ReadBlock, UpTo;
    BlockOpens(s, nonce);
    SkipsTo(nonce, skipped, BlockText(s, nonce) + rest);
    ReadBlockInverts(s, nonce, rest);
  }

  // What separates a segment's text from what follows it.
  function Separator(others: seq<Segment>): string {
    if others == [] then "" else "\n"
  }

  lemma TextsCons(segments: seq<Segment>, nonce: string)
    requires segments != []
    ensures var rest := Separator(segments[1..]) + SegmentTexts(segments[1..], nonce);
      SegmentTexts(segments, nonce) == SegmentText(segments[0], nonce) + rest
  {
    hide SegmentText;
    var text := SegmentText(segments[0], nonce);
    if |segments| == 1 {
      assert segments[1..] == [] && text + ("" + "") == text;
    } else {
      ConcatAssoc(text, "\n", SegmentTexts(segments[1..], nonce));
    }
  }

  lemma SystemSkipped(skipped: string, text: string, separator: string, rest: string)
    ensures skipped + (text + (separator + rest)) == (skipped + text + separator) + rest
  {}

  lemma {:induction false} FencesRead(segments: seq<Segment>, nonce: string, skipped: string)
    requires '<' !in skipped && forall s :: s in segments && s.channel == System ==> '<' !in s.text
    ensures ReadFences(nonce, skipped + SegmentTexts(segments, nonce)) == Some(BlocksOf(Fenced(segments)))
    decreases |segments|
  {
    hide BlockText, ReadBlock, UpTo, Separator, BlocksOf, BlockOf;
    if segments == [] {
      NoBlocks();
      assert skipped + "" == skipped;
      UpToNone('<', skipped);
    } else {
      var s, others := segments[0], segments[1..];
      var separator := Separator(others);
      SeparatorIsInert(others);
      TextsCons(segments, nonce);
      FencedCons(segments);
      if s.channel == System {
        SystemSkipped(skipped, s.text, separator, SegmentTexts(others, nonce));
        FencesRead(others, nonce, skipped + s.text + separator);
      } else {
        ReadsOne(nonce, skipped, s, separator + SegmentTexts(others, nonce));
        FencesRead(others, nonce, separator);
      }
    }
  }

  lemma NoBlocks()
    ensures BlocksOf([]) == []
  {}

  lemma FencedCons(segments: seq<Segment>)
    requires segments != []
    ensures var others := BlocksOf(Fenced(segments[1..]));
      BlocksOf(Fenced(segments)) == if segments[0].channel == System then others else [BlockOf(segments[0])] + others
  {}

  lemma SeparatorIsInert(others: seq<Segment>)
    ensures '<' !in Separator(others)
  {}

  /** Where no SYSTEM text holds an opening bracket, reading fence after fence recovers every non-SYSTEM segment
      of a prompt, in order. */
  lemma FencesAreRecovered(segments: seq<Segment>, nonce: string)
    requires forall s :: s in segments && s.channel == System ==> '<' !in s.text
    ensures ReadFences(nonce, Rendered(segments, nonce)) == Some(BlocksOf(Fenced(segments)))
  {
    RenderedIsSegmentTexts(segments, nonce);
    FencesRead(segments, nonce, "");
    assert "" + SegmentTexts(segments, nonce) == SegmentTexts(segments, nonce);
  }

  lemma {:induction false} FencedOrigin(segments: seq<Segment>, i: nat) returns (k: nat)
    requires i < |Fenced(segments)|
    ensures k < |segments| && segments[k] == Fenced(segments)[i] && segments[k].channel != System
  {
    if segments[0].channel == System {
      k := FencedOrigin(segments[1..], i);
      k := k + 1;
    } else if i == 0 {
      k := 0;
    } else {
      k := FencedOrigin(segments[1..], i - 1);
      k := k + 1;
    }
  }

  /** And each block that then reads back as trusted stands for a TOOL segment, whose signature and label the
      audit log of the same assembly holds. */
  lemma {:induction false} TrustedFencesAreSigned(
    segments: seq<Segment>, prompt: Prompt, blocks: seq<Block>, i: nat) returns (k: nat)
    requires forall s :: s in segments ==> Admit(s).Ok? && (s.channel == System ==> '<' !in s.text)
    requires prompt.text == Rendered(segments, prompt.nonce) && |prompt.audit| == |segments|
    requires forall j :: 0 <= j < |segments| ==> prompt.audit[j] == EntryOf(segments[j])
    requires ReadFences(prompt.nonce, prompt.text) == Some(blocks) && i < |blocks| && blocks[i].trust == Trusted
    ensures blocks[i].channel == Tool && k < |prompt.audit|
    ensures prompt.audit[k] == Entry(Tool, blocks[i].source, Trusted, prompt.audit[k].signature)
    ensures prompt.audit[k].signature != ""
  {
    FencesAreRecovered(segments, prompt.nonce);
    k := FencedOrigin(segments, i);
    assert segments[k] in segments;
    AdmittedTrust(segments[k]);
  }

  // ----- only the assembler writes fences -----

  function CountOf(c: char, s: string): nat {
    if s == "" then 0 else (if s[0] == c then 1 else 0) + CountOf(c, s[1..])
  }

  lemma {:induction false} CountConcat(c: char, a: string, b: string)
    ensures CountOf(c, a + b) == CountOf(c, a) + CountOf(c, b)
  {
    if a == "" {
      assert a + b == b;
    } else {
      CountConcat(c, a[1..], b);
      assert (a + b)[1..] == a[1..] + b;
    }
  }

  lemma {:induction false} CountAbsent(c: char, s: string)
    requires c !in s
    ensures CountOf(c, s) == 0
  {
    if s != "" {
      CountAbsent(c, s[1..]);
    }
  }

  lemma StartBrackets(nonce: string)
    requires '<' !in nonce
    ensures CountOf('<', FenceStart(nonce)) == 2
  {
    var fence, inner := "<<", "wt-iso:" + nonce + ":";
    assert FenceStart(nonce) == fence + inner;
    CountConcat('<', fence, inner);
    CountAbsent('<', inner);
    assert CountOf('<', fence) == 2;
  }

  lemma BlockBrackets(s: Segment, nonce: string)
    requires '<' !in nonce
    ensures CountOf('<', BlockText(s, nonce)) == 4
  {
    hide Escaped, Header, FenceStart;
    var start := FenceStart(nonce);
    StartBrackets(nonce);
    CountConcat('<', start, "end>>");
    CountAbsent('<', "end>>");
    HeaderIsInert(s);
    EscapedIsInert(s.text);
    var middle := Header(s) + ">>\n" + Escaped(s.text) + "\n";
    assert '<' !in middle;
    CountAbsent('<', middle);
    CountConcat('<', start, middle);
    CountConcat('<', start + middle, CloseMarker(nonce));
    assert BlockText(s, nonce) == start + middle + CloseMarker(nonce);
  }

  /** Under a nonce free of brackets, the opening brackets of a rendering are exactly the four that each
      segment's own fence brings: no label or text adds another. */
  lemma {:induction false} FencesAreTheAssemblers(segments: seq<Segment>, nonce: string)
    requires '<' !in nonce
    requires forall s :: s in segments ==> s.channel != System
    ensures CountOf('<', Rendered(segments, nonce)) == 4 * |segments|
  {
    hide BlockText;
    RenderedIsSegmentTexts(segments, nonce);
    if segments != [] {
      var s, others := segments[0], segments[1..];
      BlockBrackets(s, nonce);
      if others != [] {
        FencesAreTheAssemblers(others, nonce);
        RenderedIsSegmentTexts(others, nonce);
        CountConcat('<', BlockText(s, nonce), "\n");
        CountConcat('<', BlockText(s, nonce) + "\n", SegmentTexts(others, nonce));
        CountAbsent('<', "\n");
      }
    }
  }
}
