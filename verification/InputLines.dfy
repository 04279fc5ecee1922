/** The line reader over a byte stream that answers reads in chunks of its own choosing. */
module InputLines {

  const CHUNK := 4096

  // ---------------------------------------------------------------- lines of a text

  function IndexOfLf(s: string): (i: nat)
    ensures i <= |s| && '\n' !in s[..i] && (i < |s| ==> s[i] == '\n')
  {
    if s == "" then 0 else if s[0] == '\n' then 0
    else
      var i := 1 + IndexOfLf(s[1..]);
      assert s[..i] == [s[0]] + s[1..][..i - 1];
      i
  }

  function DropCr(line: string): string {
    if line != "" && line[|line| - 1] == '\r' then line[..|line| - 1] else line
  }

  /** The pieces between line feeds; a last piece without one counts when it is not empty. */
  function RawLines(s: string): seq<string> {
    var i := IndexOfLf(s);
    if i < |s| then [s[..i]] + RawLines(s[i + 1..]) else if s != "" then [s] else []
  }

  function Lines(s: string): (r: seq<string>)
    ensures |r| == |RawLines(s)| && forall k :: 0 <= k < |r| ==> r[k] == DropCr(RawLines(s)[k])
  {
    var raw := RawLines(s);
    seq(|raw|, k requires 0 <= k < |raw| => DropCr(raw[k]))
  }

  /** Every piece followed by a line feed. */
  function Unlines(pieces: seq<string>): string {
    if pieces == [] then "" else pieces[0] + "\n" + Unlines(pieces[1..])
  }

  /** The pieces hold no line feed and, each ended by one, give the text back; only a text that does
      not end in a line feed gains one. */
  lemma {:induction false} RawLinesGiveBack(s: string)
    ensures forall k :: 0 <= k < |RawLines(s)| ==> '\n' !in RawLines(s)[k]
    ensures Unlines(RawLines(s)) == if s == "" || s[|s| - 1] == '\n' then s else s + "\n"
  {
    var i := IndexOfLf(s);
    if i < |s| {
      var rest := s[i + 1..];
      RawLinesGiveBack(rest);
      assert RawLines(s)[1..] == RawLines(rest);
      assert s == s[..i] + "\n" + rest;
      if rest != "" {
        assert rest[|rest| - 1] == s[|s| - 1];
      }
    } else if s != "" {
      assert [s][1..] == [];
      assert s[..|s|] == s;
      assert s + "\n" + "" == s + "\n";
    }
  }

  /** Pieces without line feeds are the lines of the text they make. */
  lemma {:induction false} UnlinesSplits(pieces: seq<string>)
    requires forall k :: 0 <= k < |pieces| ==> '\n' !in pieces[k]
    ensures RawLines(Unlines(pieces)) == pieces
  {
    if pieces != [] {
      var s := Unlines(pieces);
      var i := |pieces[0]|;
      assert s[i] == '\n' && s[..i] == pieces[0] && s[i + 1..] == Unlines(pieces[1..]);
      FirstLf(s, i);
      UnlinesSplits(pieces[1..]);
    }
  }

  lemma FirstLf(s: string, i: nat)
    requires i < |s| && s[i] == '\n' && '\n' !in s[..i]
    ensures IndexOfLf(s) == i
  {
    var j := IndexOfLf(s);
    assert forall k :: 0 <= k < i ==> s[k] == s[..i][k];
    assert forall k :: 0 <= k < j ==> s[k] == s[..j][k];
  }

  /** Every piece followed by a carriage return and a line feed. */
  function CrLfLines(pieces: seq<string>): string {
    if pieces == [] then "" else pieces[0] + "\r\n" + CrLfLines(pieces[1..])
  }

  /** A line loses exactly one carriage return at its end, and nothing else. */
  lemma DropsOneCr(line: string)
    ensures DropCr(line + "\r") == line
    ensures (forall shorter :: line != shorter + "\r") ==> DropCr(line) == line
  {
    if line != "" && line[|line| - 1] == '\r' {
      assert line == line[..|line| - 1] + "\r";
    }
  }

  /** Pieces without line feeds are the lines of the text that ends each with CR LF, and, unless one
      ends in a carriage return itself, of the text that ends each with LF. */
  lemma EitherEndingSameLines(pieces: seq<string>)
    requires forall k :: 0 <= k < |pieces| ==> '\n' !in pieces[k]
    ensures Lines(CrLfLines(pieces)) == pieces
    ensures (forall k, shorter :: 0 <= k < |pieces| ==> pieces[k] != shorter + "\r") ==>
              Lines(Unlines(pieces)) == pieces
  {
    var crs := seq(|pieces|, k requires 0 <= k < |pieces| => pieces[k] + "\r");
    CrLfIsLf(pieces);
    UnlinesSplits(crs);
    UnlinesSplits(pieces);
    hide Unlines, CrLfLines, RawLines, DropCr;
    forall k | 0 <= k < |pieces|
      ensures DropCr(crs[k]) == pieces[k]
      ensures (forall shorter :: pieces[k] != shorter + "\r") ==> DropCr(pieces[k]) == pieces[k]
    {
      DropsOneCr(pieces[k]);
    }
  }

  lemma {:induction false} CrLfIsLf(pieces: seq<string>)
    ensures var crs := seq(|pieces|, k requires 0 <= k < |pieces| => pieces[k] + "\r");
            CrLfLines(pieces) == Unlines(crs)
  {
    if pieces != [] {
      CrLfIsLf(pieces[1..]);
      var crs := seq(|pieces|, k requires 0 <= k < |pieces| => pieces[k] + "\r");
      var rest := seq(|pieces[1..]|, k requires 0 <= k < |pieces[1..]| => pieces[1..][k] + "\r");
      assert crs[1..] == rest;
      assert pieces[0] + "\r\n" == (pieces[0] + "\r") + "\n";
    }
  }

  // ---------------------------------------------------------------- the reader

  datatype Pulled = Line(text: string) | Eof

  /** What one pull takes off the unread bytes. */
  function Pull(unread: string): (Pulled, string) {
    var i := IndexOfLf(unread);
    if i < |unread| then (Line(DropCr(unread[..i])), unread[i + 1..])
    else if unread != "" then (Line(DropCr(unread)), "")
    else (Eof, "")
  }

  /** What a platform probe of the stream does: read ahead, see data without reading it, find the
      far end gone for good, or learn nothing. */
  datatype Probe = ReadAhead | Peek | Broken | Silent

  /** What the reads that are still to come will return. */
  function Concat(chunks: seq<string>): string {
    if chunks == [] then "" else chunks[0] + Concat(chunks[1..])
  }

  class InputLineSource {
    var buffer: string
    var bufferPos: nat
    var streamEof: bool
    const hasCue: bool
    var cues: nat
    var chunks: seq<string>
    var probes: seq<Probe>

    predicate Valid()
      reads this
    {
      && bufferPos <= |buffer|
      && (streamEof ==> chunks == [])
      && forall k :: 0 <= k < |chunks| ==> 1 <= |chunks[k]| <= CHUNK
    }

    /** The bytes of the stream that no pull has taken yet. */
    function Unread(): string
      requires bufferPos <= |buffer|
      reads this
    {
      buffer[bufferPos..] + Concat(chunks)
    }

    /** What the next platform probe will do. */
    function Probed(): Probe
      reads this
    {
      if probes == [] then Silent else probes[0]
    }

    /** The coming read may block, as far as a probe can tell. */
    predicate MayBlock()
      reads this
    {
      && bufferPos <= |buffer| && buffer[bufferPos..] == "" && !streamEof
      && match Probed()
         case ReadAhead => false
         case Peek => chunks == []
         case Broken => chunks != []
         case Silent => true
    }

    constructor (chunks: seq<string>, probes: seq<Probe>, hasCue: bool)
      requires forall k :: 0 <= k < |chunks| ==> 1 <= |chunks[k]| <= CHUNK
      ensures Valid() && Unread() == Concat(chunks) && cues == 0
    {
      buffer, bufferPos, streamEof, cues := "", 0, false, 0;
      this.hasCue, this.chunks, this.probes := hasCue, chunks, probes;
    }

    /** One read: whatever the stream has now joins the buffer, or its end is latched. */
    method FillBuffer() returns (more: bool)
      requires Valid()
      modifies `buffer, `streamEof, `chunks
      ensures Valid() && Unread() == old(Unread())
      ensures more ==> |chunks| < old(|chunks|) && buffer != "" && bufferPos < |buffer| && buffer[bufferPos..] != ""
      ensures !more ==> chunks == [] && buffer == old(buffer)
      ensures streamEof <==> !more
      ensures old(buffer) <= buffer
    {
      if streamEof {
        return false;
      }
      if chunks == [] {
        streamEof := true;
        return false;
      }
      assert buffer[bufferPos..] + (chunks[0] + Concat(chunks[1..]))
          == (buffer + chunks[0])[bufferPos..] + Concat(chunks[1..]);
      buffer, chunks := buffer + chunks[0], chunks[1..];
      return true;
    }

    /** A probe loses nothing; when it says there is more, there is. It says so exactly when bytes
        are buffered, or the platform answers by reading ahead or peeking and the stream has some;
        it finds the end exactly when it runs into it. */
    method HasMore() returns (more: bool)
      requires Valid()
      modifies `buffer, `streamEof, `chunks, `probes
      ensures Valid() && Unread() == old(Unread()) && |chunks| <= old(|chunks|) && old(buffer) <= buffer
      ensures more ==> Unread() != ""
      ensures more <==> old(bufferPos < |buffer|
                            || (!streamEof && (Probed() == ReadAhead || Probed() == Peek) && chunks != []))
      ensures streamEof <==> old(streamEof || (bufferPos == |buffer| && chunks == []
                                               && (Probed() == ReadAhead || Probed() == Broken)))
      ensures buffer != old(buffer) ==> |chunks| < old(|chunks|)
      ensures old(bufferPos < |buffer|) ==> more && unchanged(`buffer) && unchanged(`streamEof)
      ensures !more ==> buffer == old(buffer)
      ensures old(streamEof) ==> streamEof
    {
      if bufferPos < |buffer| {
        return true;
      }
      if streamEof {
        return false;
      }
      var probe := Silent;
      if probes != [] {
        probe, probes := probes[0], probes[1..];
      }
      match probe
      case ReadAhead => more := FillBuffer();
      case Peek => more := chunks != [];
      case Broken =>
        more := false;
        streamEof := chunks == [];
      case Silent => more := false;
    }

    /** One pull takes exactly the next line off the unread bytes, however they arrive. The cue fires
        once if nothing at all was buffered and the read may block, and otherwise not at all. */
    method PullLine() returns (r: Pulled)
      requires Valid()
      modifies `buffer, `bufferPos, `streamEof, `chunks, `probes, `cues
      ensures Valid() && (r, Unread()) == Pull(old(Unread()))
      ensures cues == old(cues) + if hasCue && old(MayBlock()) then 1 else 0
    {
      hide Concat, Pull, IndexOfLf, DropCr;
      ghost var unread := Unread();
      ghost var untried := true;
      while true
        invariant Valid() && Unread() == unread
        invariant cues == if untried then old(cues) else old(cues) + if hasCue && old(MayBlock()) then 1 else 0
        invariant untried ==> MayBlock() == old(MayBlock())
        invariant !untried ==> buffer[bufferPos..] != ""
        decreases |chunks|
      {
        var avail := buffer[bufferPos..];
        var nl := IndexOfLf(avail);
        NoLf(avail);
        if nl < |avail| {
          PullFront(avail, Concat(chunks));
          bufferPos := bufferPos + nl + 1;
          assert buffer[bufferPos..] == avail[nl + 1..];
          return Line(DropCr(avail[..nl]));
        }
        DropConsumed();
        untried := false;
        if hasCue {
          Cue();
          if '\n' in buffer {
            continue;
          }
        }
        var filled := FillBuffer();
        assert buffer[0..] == buffer;
        if !filled {
          NothingLeft();
          assert unread == buffer;
          PullRest(buffer);
          if buffer != "" {
            r := Line(DropCr(buffer));
            buffer := "";
            return;
          }
          return Eof;
        }
      }
    }

    /** The consumed prefix goes. */
    method DropConsumed()
      requires Valid()
      modifies `buffer, `bufferPos
      ensures Valid() && bufferPos == 0 && buffer == old(buffer[bufferPos..]) && Unread() == old(Unread())
    {
      buffer := buffer[bufferPos..];
      bufferPos := 0;
      assert buffer[0..] == buffer;
    }

    /** The wait cue: only when the coming read may block. */
    method Cue()
      requires Valid() && bufferPos == 0 && hasCue
      modifies `buffer, `streamEof, `chunks, `probes, `cues
      ensures Valid() && Unread() == old(Unread()) && |chunks| <= old(|chunks|) && old(buffer) <= buffer
      ensures buffer != old(buffer) ==> |chunks| < old(|chunks|)
      ensures cues == old(cues) + if old(MayBlock()) then 1 else 0
      ensures old(streamEof) ==> streamEof
    {
      var more := HasMore();
      if !more && !streamEof {
        cues := cues + 1;
      }
    }
  }

  lemma NothingLeft()
    ensures Concat([]) == ""
  {
  }

  lemma PullFront(front: string, back: string)
    requires IndexOfLf(front) < |front|
    ensures var i := IndexOfLf(front); Pull(front + back) == (Line(DropCr(front[..i])), front[i + 1..] + back)
  {
    hide IndexOfLf, DropCr;
    var i, s := IndexOfLf(front), front + back;
    Splice(front, back, i);
    FirstLf(s, i);
  }

  lemma Splice(front: string, back: string, i: nat)
    requires i < |front|
    ensures (front + back)[..i] == front[..i] && (front + back)[i] == front[i]
    ensures (front + back)[i + 1..] == front[i + 1..] + back
  {
  }

  lemma PullRest(s: string)
    requires '\n' !in s
    ensures Pull(s) == if s != "" then (Line(DropCr(s)), "") else (Eof, "")
  {
    NoLf(s);
  }

  lemma NoLf(s: string)
    ensures '\n' !in s <==> IndexOfLf(s) == |s|
  {
    if IndexOfLf(s) == |s| {
      assert s[..|s|] == s;
    }
  }

  // ---------------------------------------------------------------- whole streams

  /** What the k-th pull must answer. */
  function Answer(lines: seq<string>, k: nat): Pulled {
    if k < |lines| then Line(lines[k]) else Eof
  }

  lemma PullIsNextLine(s: string)
    ensures Pull(s).0 == Answer(Lines(s), 0)
    ensures Lines(Pull(s).1) == if Lines(s) == [] then [] else Lines(s)[1..]
  {
    hide IndexOfLf, DropCr;
    var i := IndexOfLf(s);
    if i < |s| {
      assert RawLines(s)[1..] == RawLines(s[i + 1..]);
    }
  }

  datatype Call = AskMore | TakeLine

  /** Whatever the stream's chunks, whatever the probes do, and wherever the program asks whether
      there is more: the pulls answer with the stream's lines in order, then end of file for ever. */
  method ReadStream(chunks: seq<string>, probes: seq<Probe>, hasCue: bool, calls: seq<Call>)
      returns (pulled: seq<Pulled>)
    requires forall k :: 0 <= k < |chunks| ==> 1 <= |chunks[k]| <= CHUNK
    ensures |pulled| == Takes(calls)
    ensures forall k :: 0 <= k < |pulled| ==> pulled[k] == Answer(Lines(Concat(chunks)), k)
  {
    hide Lines, RawLines, IndexOfLf, DropCr, Pull, Concat;
    var source := new InputLineSource(chunks, probes, hasCue);
    ghost var lines := Lines(Concat(chunks));
    pulled := [];
    for i := 0 to |calls|
      invariant fresh(source) && source.Valid()
      invariant |pulled| == Takes(calls[..i])
      invariant forall k :: 0 <= k < |pulled| ==> pulled[k] == Answer(lines, k)
      invariant Lines(source.Unread()) == if |pulled| <= |lines| then lines[|pulled|..] else []
    {
      assert calls[..i + 1][..i] == calls[..i];
      if calls[i] == AskMore {
        var more := source.HasMore();
      } else {
        PullIsNextLine(source.Unread());
        var r := source.PullLine();
        assert |pulled| < |lines| ==> lines[|pulled|..][1..] == lines[|pulled| + 1..];
        pulled := pulled + [r];
      }
    }
    assert calls[..|calls|] == calls;
  }

  function Takes(calls: seq<Call>): nat {
    if calls == [] then 0
    else Takes(calls[..|calls| - 1]) + if calls[|calls| - 1] == TakeLine then 1 else 0
  }
}
