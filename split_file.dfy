/** scripts/split_file.py: cutting a text file, at line boundaries, into files of about
    `size // num_files` bytes each. */
module SplitFile {
  import opened Wrappers
  import opened PyStr

  /** `len(c.encode('utf-8'))` for one code point. */
  function Utf8Width(c: char): (n: nat)
    ensures 1 <= n <= 4
  {
    if (c as int) < 0x80 then 1
    else if (c as int) < 0x800 then 2
    else if (c as int) < 0x10000 then 3
    else 4
  }

  /** `len(line.encode('utf-8'))` */
  function Utf8Size(s: String): (n: nat)
    ensures s != [] ==> n >= 1
    decreases |s|
  {
    if s == [] then 0 else Utf8Size(s[..|s| - 1]) + Utf8Width(s[|s| - 1])
  }

  /** The bytes of a sequence of lines. */
  function Size(lines: seq<String>): nat
    decreases |lines|
  {
    if lines == [] then 0 else Size(lines[..|lines| - 1]) + Utf8Size(lines[|lines| - 1])
  }

  /** Python's `a // b`: the quotient rounded towards minus infinity (Dafny's `/` is Euclidean). */
  function FloorDiv(a: int, b: int): (q: int)
    requires b != 0
    ensures b * q <= a < b * q + b || b * q + b < a <= b * q
  {
    if b > 0 then a / b else (-a) / (-b)
  }

  /* The splitting loop as a function: the files already closed, the lines of the open one, and
     `current_size`. */

  datatype Cut = Cut(closed: seq<seq<String>>, open: seq<String>, current: int)

  /** One line: it goes to the open file, and once `current_size` reaches the budget that file is
      closed and an empty one is opened. */
  function Step(c: Cut, line: String, budget: int): Cut
  {
    var size := c.current + Utf8Size(line);
    if size >= budget then Cut(c.closed + [c.open + [line]], [], 0)
    else Cut(c.closed, c.open + [line], size)
  }

  function Run(lines: seq<String>, budget: int): Cut
    decreases |lines|
  {
    if lines == [] then Cut([], [], 0) else Step(Run(lines[..|lines| - 1], budget), lines[|lines| - 1], budget)
  }

  /** The contents of `wiki_00.txt`, `wiki_01.txt`, ...: every closed file, then the last one opened. */
  function Chunks(lines: seq<String>, budget: int): seq<seq<String>>
  {
    var c := Run(lines, budget);
    c.closed + [c.open]
  }

  /** The lines of the files, one file after the other. */
  function Concat(chunks: seq<seq<String>>): seq<String>
    decreases |chunks|
  {
    if chunks == [] then [] else Concat(chunks[..|chunks| - 1]) + chunks[|chunks| - 1]
  }

  /** A file the loop closes: it reached the budget with its last line and not before. */
  ghost predicate Full(chunk: seq<String>, budget: int)
  {
    chunk != [] && Size(chunk) >= budget && forall k :: 1 <= k < |chunk| ==> Size(chunk[..k]) < budget
  }

  /** The file left open at the end: none of its prefixes reached the budget. */
  ghost predicate Short(chunk: seq<String>, budget: int)
  {
    forall k :: 1 <= k <= |chunk| ==> Size(chunk[..k]) < budget
  }

  lemma SizeSnoc(lines: seq<String>, line: String)
    ensures Size(lines + [line]) == Size(lines) + Utf8Size(line)
  {
    assert (lines + [line])[..|lines|] == lines;
  }

  lemma ConcatSnoc(chunks: seq<seq<String>>, chunk: seq<String>)
    ensures Concat(chunks + [chunk]) == Concat(chunks) + chunk
  {
    assert (chunks + [chunk])[..|chunks|] == chunks;
  }

  /** What the loop keeps: `current_size` is the size of the open file, the files are the lines in
      order, every closed file is full and the open one is short. */
  ghost predicate Kept(c: Cut, lines: seq<String>, budget: int)
  {
    && c.current == Size(c.open)
    && Concat(c.closed) + c.open == lines
    && (forall i :: 0 <= i < |c.closed| ==> Full(c.closed[i], budget))
    && Short(c.open, budget)
  }

  lemma StepKept(c: Cut, lines: seq<String>, line: String, budget: int)
    requires Kept(c, lines, budget)
    ensures Kept(Step(c, line, budget), lines + [line], budget)
  {
    SizeSnoc(c.open, line);
    OpenPrefixes(c.open, line, budget);
    if Size(c.open + [line]) >= budget {
      ConcatSnoc(c.closed, c.open + [line]);
    }
  }

  /** A line after a short file: every shorter prefix is still below the budget. */
  lemma OpenPrefixes(open: seq<String>, line: String, budget: int)
    requires Short(open, budget)
    ensures var full := open + [line];
            && (forall k :: 1 <= k < |full| ==> Size(full[..k]) < budget)
            && full[..|full|] == full
  {
    var full := open + [line];
    forall k | 1 <= k < |full| ensures Size(full[..k]) < budget {
      assert full[..k] == open[..k];
    }
  }

  /** The loop keeps its invariant over all the lines. */
  lemma {:induction false} RunKept(lines: seq<String>, budget: int)
    ensures Kept(Run(lines, budget), lines, budget)
    decreases |lines|
  {
    if lines == [] {
      assert Concat([]) + [] == lines;
    } else {
      var init := lines[..|lines| - 1];
      RunKept(init, budget);
      StepKept(Run(init, budget), init, lines[|lines| - 1], budget);
      assert init + [lines[|lines| - 1]] == lines;
    }
  }

  /** The files hold the input lines, in order; every file but the last reached the budget with its
      last line and not before, and the last never reached it. */
  lemma ChunksExact(lines: seq<String>, budget: int)
    ensures var chunks := Chunks(lines, budget);
            && |chunks| >= 1 && Concat(chunks) == lines
            && (forall i :: 0 <= i < |chunks| - 1 ==> Full(chunks[i], budget))
            && Short(chunks[|chunks| - 1], budget)
  {
    var c := Run(lines, budget);
    RunKept(lines, budget);
    ConcatSnoc(c.closed, c.open);
    assert Chunks(lines, budget)[..|c.closed|] == c.closed;
  }

  /** A budget of zero or less closes a file after every line, and the last file is empty. */
  lemma NoBudget(lines: seq<String>, budget: int)
    requires budget <= 0
    ensures var chunks := Chunks(lines, budget);
            && |chunks| == |lines| + 1 && chunks[|lines|] == []
            && forall i :: 0 <= i < |lines| ==> chunks[i] == [lines[i]]
  {
    var chunks := Chunks(lines, budget);
    ChunksExact(lines, budget);
    var last := chunks[|chunks| - 1];
    assert |last| >= 1 ==> Size(last[..1]) >= 0;
    forall i | 0 <= i < |chunks| - 1 ensures |chunks[i]| == 1 {
      assert |chunks[i]| >= 2 ==> Size(chunks[i][..1]) >= 0;
    }
    OneLineChunks(chunks, lines);
  }

  /** The last file is empty exactly when there are no lines or the last line closed a file. */
  lemma LastChunkEmpty(lines: seq<String>, budget: int)
    ensures var chunks := Chunks(lines, budget);
            chunks[|chunks| - 1] == [] <==>
              lines == [] || Run(lines[..|lines| - 1], budget).current + Utf8Size(lines[|lines| - 1]) >= budget
  {
  }

  /** Files of one line each, then an empty one, hold the lines one per file. */
  lemma {:induction false} OneLineChunks(chunks: seq<seq<String>>, lines: seq<String>)
    requires |chunks| >= 1 && chunks[|chunks| - 1] == [] && Concat(chunks) == lines
    requires forall i :: 0 <= i < |chunks| - 1 ==> |chunks[i]| == 1
    ensures |chunks| == |lines| + 1 && forall i :: 0 <= i < |lines| ==> chunks[i] == [lines[i]]
    decreases |chunks|
  {
    if |chunks| > 1 {
      var init := chunks[..|chunks| - 1];
      var before := init[..|init| - 1] + [[]];
      assert Concat(init) == lines by {
        assert Concat(chunks) == Concat(init) + [];
      }
      ConcatSnoc(init[..|init| - 1], []);
      ConcatSnoc(init[..|init| - 1], init[|init| - 1]);
      assert init == init[..|init| - 1] + [init[|init| - 1]];
      var rest := Concat(init[..|init| - 1]);
      assert lines == rest + init[|init| - 1];
      OneLineChunks(before, rest);
      forall i | 0 <= i < |lines| ensures chunks[i] == [lines[i]] {
        if i < |rest| {
          assert chunks[i] == before[i];
        }
      }
    }
  }

  /** Every closed file holds at least the budget, so the closed files together hold at least
      `budget` times their number. */
  lemma {:induction false} ClosedSize(chunks: seq<seq<String>>, budget: int)
    requires forall i :: 0 <= i < |chunks| ==> Full(chunks[i], budget)
    ensures Size(Concat(chunks)) >= |chunks| * budget
    decreases |chunks|
  {
    if chunks != [] {
      var init := chunks[..|chunks| - 1];
      ClosedSize(init, budget);
      SizeAppend(Concat(init), chunks[|chunks| - 1]);
      MulSucc(|init|, budget);
    }
  }

  lemma MulSucc(n: nat, b: int)
    ensures (n + 1) * b == n * b + b
  {
  }

  lemma {:induction false} SizeAppend(a: seq<String>, b: seq<String>)
    ensures Size(a + b) == Size(a) + Size(b)
    decreases |b|
  {
    if b == [] {
      assert a + b == a;
    } else {
      assert (a + b)[..|a + b| - 1] == a + b[..|b| - 1];
      SizeAppend(a, b[..|b| - 1]);
    }
  }

  /** The number of files: one more than the closed files, which each hold at least the budget. */
  lemma FileCount(lines: seq<String>, budget: int)
    ensures (|Chunks(lines, budget)| - 1) * budget <= Size(lines)
  {
    var c := Run(lines, budget);
    RunKept(lines, budget);
    ClosedSize(c.closed, budget);
    SizeAppend(Concat(c.closed), c.open);
  }

  /** Why the script stops: `input_size // num_files` with `num_files == 0`. */
  datatype Failure = ZeroDivisionError

  /** `split_file`: the budget is `input_size // num_files`, where `input_size` is the size of the
      file on disk; each line is written to the open file and counted in `current_size`, and once
      `current_size` reaches the budget the file is closed and the next one opened. */
  method Split(lines: seq<String>, inputSize: nat, numFiles: int) returns (r: Result<seq<seq<String>>, Failure>)
    ensures numFiles == 0 <==> r.Err?
    ensures numFiles != 0 ==> r == Ok(Chunks(lines, FloorDiv(inputSize, numFiles)))
  {
    if numFiles == 0 {
      return Err(ZeroDivisionError);
    }
    var fileSize := FloorDiv(inputSize, numFiles);
    var closed: seq<seq<String>> := [];
    var open: seq<String> := [];
    var currentSize := 0;
    for i := 0 to |lines|
      invariant Run(lines[..i], fileSize) == Cut(closed, open, currentSize)
    {
      assert lines[..i + 1][..i] == lines[..i];
      open := open + [lines[i]];
      var lineSize := Utf8Size(lines[i]);
      currentSize := currentSize + lineSize;
      if currentSize >= fileSize {
        closed := closed + [open];
        currentSize := 0;
        open := [];
      }
    }
    assert lines[..|lines|] == lines;
    return Ok(closed + [open]);
  }
}
