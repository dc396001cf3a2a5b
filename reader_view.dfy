/**
 * The reading view (`ReaderView`): the chunking of a chapter into paragraphs
 * and sentence segments for display and text-to-speech, the playback state,
 * and the font-size buttons.
 *
 * The speech synthesiser is not modelled; the texts handed to it are
 * recorded in order.
 */
module ReaderView {
  import Text

  /** Shown, and spoken, when a chapter has no content. */
  const Placeholder := "Nội dung đang cập nhật"
  const MinFontSize := 14
  const MaxFontSize := 24
  const InitialFontSize := 18

  // ------------------------------------------------------------ sentences

  predicate IsPunct(c: char) {
    c == '.' || c == '!' || c == '?'
  }

  /** A character the run `[^.!?\n]+` cannot contain. */
  predicate StopsRun(c: char) {
    IsPunct(c) || c == '\n'
  }

  /** The end of the longest run of non-stop characters starting at `i`. */
  function RunEnd(s: string, i: nat): (r: nat)
    requires i <= |s|
    ensures i <= r <= |s|
    ensures forall k :: i <= k < r ==> !StopsRun(s[k])
    ensures r < |s| ==> StopsRun(s[r])
    decreases |s| - i
  {
    if i == |s| || StopsRun(s[i]) then i else RunEnd(s, i + 1)
  }

  /** The end of the longest run of `.`, `!` and `?` starting at `i`. */
  function PunctEnd(s: string, i: nat): (r: nat)
    requires i <= |s|
    ensures i <= r <= |s|
    ensures forall k :: i <= k < r ==> IsPunct(s[k])
    ensures r < |s| ==> !IsPunct(s[r])
    decreases |s| - i
  {
    if i == |s| || !IsPunct(s[i]) then i else PunctEnd(s, i + 1)
  }

  /**
   * The matches of `/[^.!?\n]+([.!?]+|$)/g`, left to right: a maximal run of
   * ordinary characters followed by its maximal run of punctuation, or by the
   * end of the text. Punctuation that starts the text is skipped, and a run
   * that ends at a newline matches nothing.
   */
  function Sentences(s: string): (r: seq<string>)
    ensures forall k :: 0 <= k < |r| ==> r[k] != [] && !StopsRun(r[k][0])
    decreases |s|
  {
    if s == [] then []
    else if StopsRun(s[0]) then Sentences(s[1..])
    else
      var q := RunEnd(s, 0);
      if q == |s| then [s]
      else if s[q] == '\n' then Sentences(s[q + 1..])
      else
        var e := PunctEnd(s, q);
        [s[..e]] + Sentences(s[e..])
  }

  function Concat(parts: seq<string>): string {
    if parts == [] then "" else parts[0] + Concat(parts[1..])
  }

  /**
   * On a line that does not start with punctuation no character is lost:
   * the sentences put back together give the line.
   */
  lemma {:induction false} SentencesCover(s: string)
    requires '\n' !in s
    requires s == [] || !IsPunct(s[0])
    ensures Concat(Sentences(s)) == s
    decreases |s|
  {
    if s != [] {
      var q := RunEnd(s, 0);
      if q < |s| {
        var e := PunctEnd(s, q);
        assert s[e..] == [] || !IsPunct(s[e..][0]);
        assert '\n' !in s[e..] by {
          forall k | 0 <= k < |s[e..]| ensures s[e..][k] != '\n' {
            assert s[e..][k] == s[e + k];
          }
        }
        SentencesCover(s[e..]);
        assert s == s[..e] + s[e..];
      }
    }
  }

  /**
   * The segments of one line: none for a blank line, otherwise its sentences,
   * or the whole line when it has none (it holds only punctuation).
   */
  function SentencesOf(para: string): (r: seq<string>)
    ensures Text.Trim(para) == "" <==> r == []
  {
    if Text.Trim(para) == "" then []
    else
      var m := Sentences(para);
      if m == [] then [para] else m
  }

  /**
   * A line of the content that is not blank and does not start with
   * punctuation is displayed in full: its segments put back together give it.
   */
  lemma LineTextKept(content: string, i: nat)
    requires i < |Text.Split(content, '\n')|
    requires Text.Trim(Text.Split(content, '\n')[i]) != ""
    requires !IsPunct(Text.Split(content, '\n')[i][0])
    ensures Concat(SentencesOf(Text.Split(content, '\n')[i])) == Text.Split(content, '\n')[i]
  {
    var para := Text.Split(content, '\n')[i];
    Text.SplitJoin(content, '\n');
    SentencesCover(para);
  }

  // ------------------------------------------------------------ chunking

  datatype Segment = Segment(text: string, index: nat)

  datatype Block = EmptyBlock(id: string) | TextBlock(id: string, segments: seq<Segment>)

  function ParaId(i: nat): string {
    "p-" + Text.NatToString(i)
  }

  function Segs(b: Block): seq<Segment> {
    if b.EmptyBlock? then [] else b.segments
  }

  /** Every segment of every block, in display order. */
  function AllSegments(blocks: seq<Block>): seq<Segment> {
    if blocks == [] then [] else AllSegments(blocks[..|blocks| - 1]) + Segs(blocks[|blocks| - 1])
  }

  /** The block for line `i` holds exactly that line's segments. */
  predicate BlockFor(b: Block, i: nat, para: string) {
    && b.id == ParaId(i)
    && (b.EmptyBlock? <==> Text.Trim(para) == "")
    && |Segs(b)| == |SentencesOf(para)|
    && (forall k :: 0 <= k < |Segs(b)| ==> Segs(b)[k].text == SentencesOf(para)[k])
  }

  /** Queue positions `1..` hold the trimmed segment texts, each at its own index. */
  predicate Numbered(segments: seq<Segment>, queue: seq<string>) {
    && |queue| == |segments| + 1
    && forall k :: 0 <= k < |segments| ==> segments[k].index == k + 1 && queue[k + 1] == Text.Trim(segments[k].text)
  }

  /** The inner `sentences.map`: numbers each sentence from `|queue|` and queues its trimmed text. */
  method NumberSentences(queue: seq<string>, sentences: seq<string>) returns (segs: seq<Segment>, queue': seq<string>)
    ensures |segs| == |sentences| && |queue'| == |queue| + |sentences|
    ensures queue'[..|queue|] == queue
    ensures forall k :: 0 <= k < |sentences| ==>
      segs[k] == Segment(sentences[k], |queue| + k) && queue'[|queue| + k] == Text.Trim(sentences[k])
  {
    segs, queue' := [], queue;
    var globalIndex := |queue|;
    for j := 0 to |sentences|
      invariant |segs| == j && globalIndex == |queue| + j == |queue'|
      invariant queue'[..|queue|] == queue
      invariant forall k :: 0 <= k < j ==>
        segs[k] == Segment(sentences[k], |queue| + k) && queue'[|queue| + k] == Text.Trim(sentences[k])
    {
      segs := segs + [Segment(sentences[j], globalIndex)];
      queue' := queue' + [Text.Trim(sentences[j])];
      globalIndex := globalIndex + 1;
    }
  }

  /**
   * The chunking `useMemo`: with no content, one placeholder block and a
   * queue holding only the placeholder; otherwise one block per line, the
   * title at queue index 0 (the `tts-chunk-0` heading), and the segments
   * numbered consecutively from 1 across lines.
   */
  method BuildChunks(title: string, content: string) returns (blocks: seq<Block>, queue: seq<string>)
    ensures content == "" ==> blocks == [TextBlock("empty", [Segment(Placeholder, 0)])] && queue == [Placeholder]
    ensures content != "" ==>
      && |blocks| == |Text.Split(content, '\n')|
      && (forall i :: 0 <= i < |blocks| ==> BlockFor(blocks[i], i, Text.Split(content, '\n')[i]))
      && Numbered(AllSegments(blocks), queue)
      && queue[0] == title
  {
    if content == "" {
      return [TextBlock("empty", [Segment(Placeholder, 0)])], [Placeholder];
    }
    var paras := Text.Split(content, '\n');
    queue := [title];
    blocks := [];
    for i := 0 to |paras|
      invariant |blocks| == i && |queue| >= 1 && queue[0] == title
      invariant forall j :: 0 <= j < i ==> BlockFor(blocks[j], j, paras[j])
      invariant Numbered(AllSegments(blocks), queue)
    {
      var b, queue' := ChunkParagraph(blocks, queue, i, paras[i]);
      blocks, queue := blocks + [b], queue';
    }
  }

  /** The callback of `paras.map`: the block for line `i`, with its segments numbered on from the queue. */
  method ChunkParagraph(blocks: seq<Block>, queue: seq<string>, i: nat, para: string) returns (b: Block, queue': seq<string>)
    requires |queue| >= 1 && Numbered(AllSegments(blocks), queue)
    ensures BlockFor(b, i, para)
    ensures |queue'| >= 1 && queue'[0] == queue[0]
    ensures Numbered(AllSegments(blocks + [b]), queue')
  {
    if Text.Trim(para) == "" {
      b, queue' := EmptyBlock(ParaId(i)), queue;
    } else {
      var segs;
      segs, queue' := NumberSentences(queue, SentencesOf(para));
      b := TextBlock(ParaId(i), segs);
      NumberedExtend(AllSegments(blocks), queue, segs, queue');
      assert queue'[0] == queue'[..|queue|][0];
    }
    AllSegmentsAppend(blocks, b);
  }

  lemma AllSegmentsAppend(blocks: seq<Block>, b: Block)
    ensures AllSegments(blocks + [b]) == AllSegments(blocks) + Segs(b)
  {
    assert (blocks + [b])[..|blocks|] == blocks;
  }

  lemma NumberedExtend(all: seq<Segment>, queue: seq<string>, segs: seq<Segment>, queue': seq<string>)
    requires Numbered(all, queue)
    requires |queue'| == |queue| + |segs| && queue'[..|queue|] == queue
    requires forall k :: 0 <= k < |segs| ==>
      segs[k].index == |queue| + k && queue'[|queue| + k] == Text.Trim(segs[k].text)
    ensures Numbered(all + segs, queue')
  {
    forall k | 0 <= k < |all + segs|
      ensures (all + segs)[k].index == k + 1 && queue'[k + 1] == Text.Trim((all + segs)[k].text)
    {
      if k < |all| {
        assert queue'[k + 1] == queue'[..|queue|][k + 1];
      }
    }
  }

  // ------------------------------------------------------------ playback

  /** The first non-empty chunk at or after `i`, or `|queue|` when there is none. */
  function NextNonEmpty(queue: seq<string>, i: nat): (r: nat)
    requires i <= |queue|
    ensures i <= r <= |queue|
    ensures forall k :: i <= k < r ==> queue[k] == ""
    ensures r < |queue| ==> queue[r] != ""
    decreases |queue| - i
  {
    if i == |queue| || queue[i] != "" then i else NextNonEmpty(queue, i + 1)
  }

  /** The clamped A- button. */
  function FontDown(size: int): (r: int)
    ensures r >= MinFontSize
    ensures size - 2 >= MinFontSize ==> r == size - 2
    ensures size - 2 < MinFontSize ==> r == MinFontSize
    ensures size <= MaxFontSize ==> r <= MaxFontSize
  {
    if size - 2 > MinFontSize then size - 2 else MinFontSize
  }

  /** The clamped A+ button. */
  function FontUp(size: int): (r: int)
    ensures r <= MaxFontSize
    ensures size + 2 <= MaxFontSize ==> r == size + 2
    ensures size + 2 > MaxFontSize ==> r == MaxFontSize
    ensures size >= MinFontSize ==> r >= MinFontSize
  {
    if size + 2 < MaxFontSize then size + 2 else MaxFontSize
  }

  class Player {
    var fontSize: int
    /** `audioQueue` of the current chapter. */
    var queue: seq<string>
    var speaking: bool
    var paused: bool
    /** `currentChunkIndex`, -1 when idle. */
    var current: int
    /** The texts handed to the speech synthesiser, oldest first. */
    var spoken: seq<string>

    /**
     * The font size stays within its bounds; a chunk is highlighted exactly
     * while speaking, and it is never an empty one; pausing implies speaking.
     */
    ghost predicate Valid()
      reads this
    {
      && MinFontSize <= fontSize <= MaxFontSize
      && -1 <= current < |queue|
      && (paused ==> speaking)
      && (speaking <==> current >= 0)
      && (speaking ==> queue[current] != "")
    }

    constructor (queue: seq<string>)
      ensures Valid() && this.queue == queue && fontSize == InitialFontSize
      ensures !speaking && !paused && current == -1 && spoken == []
    {
      this.queue := queue;
      fontSize := InitialFontSize;
      speaking, paused, current := false, false, -1;
      spoken := [];
    }

    /**
     * `speakChunk`: past the end of the queue playback stops; an empty chunk
     * is skipped; otherwise the chunk becomes current and is spoken.
     */
    method SpeakChunk(index: nat)
      requires index <= |queue|
      modifies this`speaking, this`paused, this`current, this`spoken
      ensures NextNonEmpty(queue, index) == |queue| ==>
        !speaking && !paused && current == -1 && spoken == old(spoken)
      ensures NextNonEmpty(queue, index) < |queue| ==>
        && current == NextNonEmpty(queue, index)
        && speaking == old(speaking) && paused == old(paused)
        && spoken == old(spoken) + [queue[current]]
      decreases |queue| - index
    {
      if index >= |queue| {
        speaking, paused, current := false, false, -1;
        return;
      }
      var text := queue[index];
      if text == "" {
        SpeakChunk(index + 1);
        return;
      }
      current := index;
      spoken := spoken + [text];
    }

    /** `handleTogglePlay`: playing pauses, paused resumes, idle starts at the first chunk. */
    method TogglePlay()
      requires Valid()
      modifies this`speaking, this`paused, this`current, this`spoken
      ensures Valid()
      ensures old(speaking) && !old(paused) ==>
        speaking && paused && current == old(current) && spoken == old(spoken)
      ensures old(paused) ==> speaking && !paused && current == old(current) && spoken == old(spoken)
      ensures !old(speaking) && NextNonEmpty(queue, 0) < |queue| ==>
        speaking && !paused && current == NextNonEmpty(queue, 0) && spoken == old(spoken) + [queue[current]]
      ensures !old(speaking) && NextNonEmpty(queue, 0) == |queue| ==>
        !speaking && !paused && current == -1 && spoken == old(spoken)
    {
      if speaking && !paused {
        paused := true;
      } else if paused {
        paused := false;
      } else {
        speaking, paused := true, false;
        var start := if current == -1 then 0 else current;
        if start < 0 {
          start := 0;
        }
        SpeakChunk(start);
      }
    }

    /** `handleStop` (and the reset when the chapter changes). */
    method Stop()
      requires Valid()
      modifies this`speaking, this`paused, this`current
      ensures Valid() && !speaking && !paused && current == -1
    {
      speaking, paused, current := false, false, -1;
    }

    /** `handleRestart`: speaking again from the title. */
    method Restart()
      requires Valid()
      modifies this`speaking, this`paused, this`current, this`spoken
      ensures Valid()
      ensures NextNonEmpty(queue, 0) < |queue| ==>
        speaking && !paused && current == NextNonEmpty(queue, 0) && spoken == old(spoken) + [queue[current]]
      ensures NextNonEmpty(queue, 0) == |queue| ==>
        !speaking && !paused && current == -1 && spoken == old(spoken)
    {
      current := 0;
      speaking, paused := true, false;
      SpeakChunk(0);
    }

    /** A voice or rate change while playing re-speaks the current chunk. */
    method UpdateSettingsWhileSpeaking()
      requires Valid()
      modifies this`speaking, this`paused, this`current, this`spoken
      ensures Valid()
      ensures speaking == old(speaking) && paused == old(paused) && current == old(current)
      ensures old(speaking) && !old(paused) ==> spoken == old(spoken) + [queue[current]]
      ensures !(old(speaking) && !old(paused)) ==> spoken == old(spoken)
    {
      if speaking && !paused && current != -1 {
        SpeakChunk(current);
      }
    }

    /** A new chapter: its queue replaces the old one and playback resets. */
    method ChangeChapter(newQueue: seq<string>)
      requires Valid()
      modifies this`queue, this`speaking, this`paused, this`current
      ensures Valid() && queue == newQueue && !speaking && !paused && current == -1
    {
      queue := newQueue;
      speaking, paused, current := false, false, -1;
    }

    method DecreaseFont()
      requires Valid()
      modifies this`fontSize
      ensures Valid() && fontSize == FontDown(old(fontSize))
    {
      fontSize := FontDown(fontSize);
    }

    method IncreaseFont()
      requires Valid()
      modifies this`fontSize
      ensures Valid() && fontSize == FontUp(old(fontSize))
    {
      fontSize := FontUp(fontSize);
    }
  }
}
