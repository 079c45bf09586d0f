/** Reading a colon-separated file line by line, where the reader may hand out a long line in pieces. */
module ColonFile {
  import opened Strings
  import opened Whitespace

  /** One delivery of the buffered reader: some bytes and whether the line goes on after them. */
  datatype Chunk = Chunk(text: string, isPrefix: bool)

  /** How the input ends once every chunk has been delivered. */
  datatype End = EOF | Broken(message: string)

  /** What a scan yields; `Nothing` stands for `(nil, nil)`. */
  datatype Outcome<+R> = Nothing | Found(value: R) | Error(message: string)

  function AtEnd<R>(end: End): Outcome<R> {
    match end
    case EOF => Nothing
    case Broken(m) => Error(m)
  }

  /** The buffered reader over one open file. At the end every further read reports the same ending. */
  class LineReader {
    var chunks: seq<Chunk>
    const end: End

    constructor (chunks: seq<Chunk>, end: End)
      ensures this.chunks == chunks && this.end == end
    {
      this.chunks := chunks;
      this.end := end;
    }

    /** The next piece of a line, or the ending; an ending comes with `isPrefix` false. */
    method ReadLine() returns (line: string, isPrefix: bool, ended: bool)
      modifies this
      ensures ended == (old(chunks) == [])
      ensures ended ==> chunks == [] && !isPrefix
      ensures !ended ==> chunks == old(chunks)[1..] && Chunk(line, isPrefix) == old(chunks)[0]
    {
      if chunks == [] {
        return "", false, true;
      }
      line, isPrefix, ended := chunks[0].text, chunks[0].isPrefix, false;
      chunks := chunks[1..];
    }
  }

  /* ---------- what the file holds ---------- */

  /** The rest of the current line. */
  function LineText(cs: seq<Chunk>): string {
    if cs == [] then ""
    else if !cs[0].isPrefix then cs[0].text
    else cs[0].text + LineText(cs[1..])
  }

  /** What follows the current line. */
  function Skip(cs: seq<Chunk>): (rest: seq<Chunk>)
    ensures cs != [] ==> |rest| < |cs|
  {
    if cs == [] then []
    else if !cs[0].isPrefix then cs[1..]
    else Skip(cs[1..])
  }

  /** The whole lines of the file, including a last one that ends with the file. */
  function Lines(cs: seq<Chunk>): seq<string>
    decreases |cs|
  {
    if cs == [] then [] else [LineText(cs)] + Lines(Skip(cs))
  }

  predicate Comment(trimmed: string) {
    trimmed != "" && trimmed[0] == '#'
  }

  predicate Ignored(trimmed: string) {
    trimmed == "" || Comment(trimmed)
  }

  /** What one whole line contributes. */
  function Judge<R>(fn: string -> Outcome<R>, line: string): Outcome<R> {
    if Ignored(Trim(line)) then Nothing else fn(Trim(line))
  }

  /** The plain scan: the first whole line that is neither blank nor a comment and that `fn` answers. */
  function ScanLines<R>(lines: seq<string>, end: End, fn: string -> Outcome<R>): Outcome<R> {
    if lines == [] then AtEnd(end)
    else if Judge(fn, lines[0]) != Nothing then Judge(fn, lines[0])
    else ScanLines(lines[1..], end, fn)
  }

  /* ---------- what the chunked scan does ---------- */

  /** One pass of the inner loop: the text gathered, whether the line goes on, and what is unread. */
  datatype Gathered = Dry | Got(text: string, cut: bool, rest: seq<Chunk>)

  function Gather(acc: string, cs: seq<Chunk>, readCols: nat): (g: Gathered)
    ensures g.Got? ==> |g.rest| < |cs|
    decreases |cs|
  {
    if cs == [] then Dry
    else
      var text := acc + cs[0].text;
      if !cs[0].isPrefix || Count(text, ':') >= readCols then Got(text, cs[0].isPrefix, cs[1..])
      else Gather(text, cs[1..], readCols)
  }

  function ScanChunks<R>(cs: seq<Chunk>, end: End, fn: string -> Outcome<R>, readCols: nat): Outcome<R>
    decreases |cs|
  {
    match Gather("", cs, readCols)
    case Dry => AtEnd(end)
    case Got(text, cut, rest) =>
      if Ignored(Trim(text)) then ScanChunks(rest, end, fn, readCols)
      else if fn(Trim(text)) != Nothing then fn(Trim(text))
      else ScanChunks(if cut then Skip(rest) else rest, end, fn, readCols)
  }

  method ReadColonFile<R>(r: LineReader, fn: string -> Outcome<R>, readCols: nat) returns (v: Outcome<R>)
    modifies r
    ensures v == ScanChunks(old(r.chunks), r.end, fn, readCols)
  {
    while true
      invariant ScanChunks(r.chunks, r.end, fn, readCols) == ScanChunks(old(r.chunks), r.end, fn, readCols)
      decreases |r.chunks|
    {
      ghost var start := r.chunks;
      var isPrefix := false;
      var wholeLine := "";
      while true
        invariant |r.chunks| <= |start|
        invariant Gather("", start, readCols) == Gather(wholeLine, r.chunks, readCols)
        decreases |r.chunks|
      {
        var line, ended;
        line, isPrefix, ended := r.ReadLine();
        if ended {
          return AtEnd(r.end);
        }
        if !isPrefix && |wholeLine| == 0 {
          wholeLine := line;
          assert "" + line == line;
          break;
        }
        wholeLine := wholeLine + line;
        if !isPrefix || Count(wholeLine, ':') >= readCols {
          break;
        }
      }
      assert Gather("", start, readCols) == Got(wholeLine, isPrefix, r.chunks);
      wholeLine := Trim(wholeLine);
      if |wholeLine| == 0 || wholeLine[0] == '#' {
        continue;
      }
      v := fn(wholeLine);
      if v != Nothing {
        return;
      }
      ghost var rest := r.chunks;
      while isPrefix
        invariant |r.chunks| <= |rest| < |start|
        invariant (if isPrefix then Skip(r.chunks) else r.chunks)
               == (if Gather("", start, readCols).cut then Skip(rest) else rest)
        decreases |r.chunks|, isPrefix
      {
        var line, ended;
        line, isPrefix, ended := r.ReadLine();
      }
    }
  }
}
