/**
 * The skill extractor's driver (`extract_skills`): the text is split into lines,
 * each stripped non-blank line is annotated by the token-classification model,
 * whole when its encoding has at most `maxNoSpecial` ids and otherwise window by
 * window, and the merger runs once over all annotations in line and window order.
 * The tokenizer (`encode`, `decode`) and the model (`annotate`) are parameters.
 */
module SkillsExtraction {
  import opened Text
  import opened SkillsPostprocessing

  /** The default window size: 512 model positions minus the two special tokens. */
  const DefaultMaxNoSpecial: int := 510

  function Min(a: int, b: int): int { if a <= b then a else b }

  /** The slices `ids[start:start+m]` for `start` in `range(0, len(ids), m)`: non-empty, at most `m` long, and just enough of them to cover the ids. */
  function Windows(ids: seq<int>, m: int): (ws: seq<seq<int>>)
    requires m > 0
    ensures forall i :: 0 <= i < |ws| ==> 0 < |ws[i]| <= m
    ensures |ids| > 0 <==> |ws| > 0
    decreases |ids|
  {
    if |ids| == 0 then []
    else if |ids| <= m then [ids]
    else [ids[..m]] + Windows(ids[m..], m)
  }

  /** The windows are just enough to cover the ids: `c` windows hold more than `(c-1)*m` and at most `c*m` ids. */
  lemma {:induction false} WindowCountBounds(ids: seq<int>, m: int)
    requires m > 0
    ensures (|Windows(ids, m)| - 1) * m < |ids| <= |Windows(ids, m)| * m
    decreases |ids|
  {
    if |ids| > m {
      var rest := Windows(ids[m..], m);
      WindowCountBounds(ids[m..], m);
      assert (|rest| + 1) * m == |rest| * m + m;
    }
  }

  lemma {:induction false} MulAtLeast(a: int, m: int)
    requires a >= 1 && m > 0
    ensures a * m >= m
    decreases a
  {
    if a > 1 {
      MulAtLeast(a - 1, m);
      assert a * m == (a - 1) * m + m;
    }
  }

  /** Integer division is determined by the multiples of `m` around the dividend. */
  lemma DivUnique(y: int, m: int, c: int)
    requires m > 0 && c * m <= y < c * m + m
    ensures y / m == c
  {
    var q, r := y / m, y % m;
    assert y == q * m + r && 0 <= r < m;
    if q < c {
      assert (c - q) * m == c * m - q * m;
      MulAtLeast(c - q, m);
      assert false;
    } else if q > c {
      assert (q - c) * m == q * m - c * m;
      MulAtLeast(q - c, m);
      assert false;
    }
  }

  /** There are ceil(n/m) windows. */
  lemma WindowCount(ids: seq<int>, m: int)
    requires m > 0
    ensures |Windows(ids, m)| == (|ids| + m - 1) / m
  {
    var c := |Windows(ids, m)|;
    WindowCountBounds(ids, m);
    assert (c - 1) * m == c * m - m;
    DivUnique(|ids| + m - 1, m, c);
  }

  function Flatten<T>(ws: seq<seq<T>>): seq<T>
    decreases |ws|
  {
    if ws == [] then [] else ws[0] + Flatten(ws[1..])
  }

  /** The windows, put back together, are the ids. */
  lemma {:induction false} FlattenWindows(ids: seq<int>, m: int)
    requires m > 0
    ensures Flatten(Windows(ids, m)) == ids
    decreases |ids|
  {
    if |ids| > m {
      FlattenWindows(ids[m..], m);
      assert ids == ids[..m] + ids[m..];
    }
  }

  /** Window `k` is `ids[k*m : (k+1)*m]`, cut short at the end. */
  lemma {:induction false} WindowAt(ids: seq<int>, m: int, k: int)
    requires m > 0 && 0 <= k < |Windows(ids, m)|
    ensures k * m < |ids| && Windows(ids, m)[k] == ids[k * m..Min((k + 1) * m, |ids|)]
    decreases k
  {
    if k > 0 {
      var rest := ids[m..];
      assert |ids| > m;
      assert Windows(ids, m)[k] == Windows(rest, m)[k - 1];
      WindowAt(rest, m, k - 1);
      assert (k - 1) * m + m == k * m;
      assert k * m + m == (k + 1) * m;
      assert rest[(k - 1) * m..Min(k * m, |rest|)] == ids[k * m..Min((k + 1) * m, |ids|)];
    }
  }

  /** `m + 1` ids give exactly two windows: the first `m` ids and the last one. */
  lemma WindowsOneOver(ids: seq<int>, m: int)
    requires m > 0 && |ids| == m + 1
    ensures Windows(ids, m) == [ids[..m], ids[m..]]
  {
    assert |ids[m..]| == 1;
  }

  /** `ids[start:]`, empty once `start` has run past the end. */
  function Drop(ids: seq<int>, start: nat): (r: seq<int>)
  {
    if start >= |ids| then [] else ids[start..]
  }

  lemma WindowsDrop(ids: seq<int>, start: nat, m: int)
    requires m > 0 && start < |ids|
    ensures Windows(Drop(ids, start), m) ==
      [ids[start..Min(start + m, |ids|)]] + Windows(Drop(ids, start + m), m)
  {
    var d := Drop(ids, start);
    if |d| > m {
      assert d[..m] == ids[start..start + m];
      assert d[m..] == Drop(ids, start + m);
    } else {
      assert d == ids[start..Min(start + m, |ids|)];
      assert Drop(ids, start + m) == [];
    }
  }

  /** The annotations of the decoded windows, window after window. */
  function AnnotateWindows(ws: seq<seq<int>>, decode: seq<int> -> string, annotate: string -> seq<Token>): seq<Token>
    decreases |ws|
  {
    if ws == [] then [] else annotate(decode(ws[0])) + AnnotateWindows(ws[1..], decode, annotate)
  }

  /** What one line of the text contributes to the merger's input. */
  function LineEntities(line: string, encode: string -> seq<int>, decode: seq<int> -> string,
                        annotate: string -> seq<Token>, m: int): seq<Token>
    requires m > 0
  {
    var l := Strip(line);
    if l == [] then []
    else if |encode(l)| <= m then annotate(l)
    else AnnotateWindows(Windows(encode(l), m), decode, annotate)
  }

  /** What each line contributes, as one function of the line. */
  function LineStage(encode: string -> seq<int>, decode: seq<int> -> string,
                     annotate: string -> seq<Token>, m: int): string -> seq<Token>
    requires m > 0
  {
    line => LineEntities(line, encode, decode, annotate, m)
  }

  /** The contributions of all lines, in line order. */
  function ConcatMap(lines: seq<string>, f: string -> seq<Token>): seq<Token>
    decreases |lines|
  {
    if lines == [] then [] else ConcatMap(lines[..|lines| - 1], f) + f(lines[|lines| - 1])
  }

  /** Contributions are concatenated in line order: the lines of `a` before those of `b`. */
  lemma {:induction false} ConcatMapAppend(a: seq<string>, b: seq<string>, f: string -> seq<Token>)
    ensures ConcatMap(a + b, f) == ConcatMap(a, f) + ConcatMap(b, f)
    decreases |b|
  {
    if b == [] {
      assert a + b == a;
    } else {
      var b0 := b[..|b| - 1];
      var ab := a + b;
      assert ab[..|ab| - 1] == a + b0 && ab[|ab| - 1] == b[|b| - 1];
      ConcatMapAppend(a, b0, f);
    }
  }

  /** The annotations of all lines, in line order. */
  function Entities(lines: seq<string>, encode: string -> seq<int>, decode: seq<int> -> string,
                    annotate: string -> seq<Token>, m: int): seq<Token>
    requires m > 0
  {
    ConcatMap(lines, LineStage(encode, decode, annotate, m))
  }

  /** The inner loop of `extract_skills`: annotate the decoded windows of a long line in order. */
  method AnnotateChunks(ids: seq<int>, decode: seq<int> -> string, nerPipeline: string -> seq<Token>, maxNoSpecial: int)
    returns (entities: seq<Token>)
    requires maxNoSpecial > 0
    ensures entities == AnnotateWindows(Windows(ids, maxNoSpecial), decode, nerPipeline)
  {
    entities := [];
    var start := 0;
    while start < |ids|
      invariant 0 <= start
      invariant entities + AnnotateFrom(ids, start, maxNoSpecial, decode, nerPipeline)
        == AnnotateFrom(ids, 0, maxNoSpecial, decode, nerPipeline)
      decreases |ids| - start
    {
      var chunkIds := ids[start..Min(start + maxNoSpecial, |ids|)];
      var chunkText := decode(chunkIds);
      var rest := AnnotateFrom(ids, start + maxNoSpecial, maxNoSpecial, decode, nerPipeline);
      assert entities + (nerPipeline(chunkText) + rest) == (entities + nerPipeline(chunkText)) + rest;
      entities := entities + nerPipeline(chunkText);
      start := start + maxNoSpecial;
    }
    AnnotateFromWindows(ids, 0, maxNoSpecial, decode, nerPipeline);
    assert Drop(ids, 0) == ids;
  }

  /** The annotations of the windows from `start` on, window after window. */
  function AnnotateFrom(ids: seq<int>, start: nat, m: int, decode: seq<int> -> string, annotate: string -> seq<Token>): seq<Token>
    requires m > 0
    decreases |ids| - start
  {
    if start >= |ids| then []
    else annotate(decode(ids[start..Min(start + m, |ids|)])) + AnnotateFrom(ids, start + m, m, decode, annotate)
  }

  /** Stepping through the ids by `m` annotates exactly the windows of what is left. */
  lemma {:induction false} AnnotateFromWindows(ids: seq<int>, start: nat, m: int, decode: seq<int> -> string,
                                               annotate: string -> seq<Token>)
    requires m > 0
    ensures AnnotateFrom(ids, start, m, decode, annotate) == AnnotateWindows(Windows(Drop(ids, start), m), decode, annotate)
    decreases |ids| - start
  {
    if start < |ids| {
      AnnotateFromWindows(ids, start + m, m, decode, annotate);
      AnnotateDrop(ids, start, m, decode, annotate);
    } else {
      assert Drop(ids, start) == [];
    }
  }

  /** The annotations from `start` on: those of the window at `start`, then those from the next window on. */
  lemma AnnotateDrop(ids: seq<int>, start: nat, m: int, decode: seq<int> -> string, annotate: string -> seq<Token>)
    requires m > 0 && start < |ids|
    ensures AnnotateWindows(Windows(Drop(ids, start), m), decode, annotate) ==
      annotate(decode(ids[start..Min(start + m, |ids|)])) + AnnotateWindows(Windows(Drop(ids, start + m), m), decode, annotate)
  {
    WindowsDrop(ids, start, m);
    var ws := Windows(Drop(ids, start), m);
    assert ws[0] == ids[start..Min(start + m, |ids|)];
    assert ws[1..] == Windows(Drop(ids, start + m), m);
  }

  lemma EntitiesSnoc(lines: seq<string>, k: int, encode: string -> seq<int>, decode: seq<int> -> string,
                     annotate: string -> seq<Token>, m: int)
    requires m > 0 && 0 <= k < |lines|
    ensures Entities(lines[..k + 1], encode, decode, annotate, m)
      == Entities(lines[..k], encode, decode, annotate, m) + LineEntities(lines[k], encode, decode, annotate, m)
  {
    assert lines[..k + 1][..k] == lines[..k];
  }

  /** `extract_skills`: the loop over lines, then one call of the merger on everything collected. */
  method ExtractSkills(text: string, encode: string -> seq<int>, decode: seq<int> -> string,
                       nerPipeline: string -> seq<Token>, maxNoSpecial: int)
    returns (skills: seq<Candidate>)
    requires maxNoSpecial > 0
    ensures skills == Merge(Entities(Split(text, '\n'), encode, decode, nerPipeline, maxNoSpecial))
  {
    var lines := Split(text, '\n');
    var allEntities: seq<Token> := [];
    for k := 0 to |lines|
      invariant allEntities == Entities(lines[..k], encode, decode, nerPipeline, maxNoSpecial)
    {
      EntitiesSnoc(lines, k, encode, decode, nerPipeline, maxNoSpecial);
      var line := Strip(lines[k]);
      if line == [] {
        continue;
      }
      var ids := encode(line);
      if |ids| <= maxNoSpecial {
        allEntities := allEntities + nerPipeline(line);
      } else {
        var chunks := AnnotateChunks(ids, decode, nerPipeline, maxNoSpecial);
        allEntities := allEntities + chunks;
      }
    }
    assert lines[..|lines|] == lines;
    skills := MergeBioEntities(allEntities);
  }

  /** Annotations are concatenated in line order: the lines of `a` before those of `b`. */
  lemma EntitiesAppend(a: seq<string>, b: seq<string>, encode: string -> seq<int>,
                       decode: seq<int> -> string, annotate: string -> seq<Token>, m: int)
    requires m > 0
    ensures Entities(a + b, encode, decode, annotate, m)
      == Entities(a, encode, decode, annotate, m) + Entities(b, encode, decode, annotate, m)
  {
    ConcatMapAppend(a, b, LineStage(encode, decode, annotate, m));
  }

  /** A blank or whitespace-only line contributes nothing. */
  lemma BlankLineContributesNothing(line: string, encode: string -> seq<int>, decode: seq<int> -> string,
                                    annotate: string -> seq<Token>, m: int)
    requires m > 0 && IsBlank(line)
    ensures LineEntities(line, encode, decode, annotate, m) == []
  {
  }

  /** A line whose stripped text encodes to at most `m` ids is annotated as that text; the decoder plays no part. */
  lemma ShortLineAnnotatedDirectly(line: string, encode: string -> seq<int>, decode1: seq<int> -> string,
                                   decode2: seq<int> -> string, annotate: string -> seq<Token>, m: int)
    requires m > 0 && !IsBlank(line) && |encode(Strip(line))| <= m
    ensures LineEntities(line, encode, decode1, annotate, m) == annotate(Strip(line))
    ensures LineEntities(line, encode, decode1, annotate, m) == LineEntities(line, encode, decode2, annotate, m)
  {
  }

  /** A longer line is annotated window by window, each window decoded back to text first. */
  lemma LongLineAnnotatedByWindows(line: string, encode: string -> seq<int>, decode: seq<int> -> string,
                                   annotate: string -> seq<Token>, m: int)
    requires m > 0 && !IsBlank(line) && |encode(Strip(line))| > m
    ensures LineEntities(line, encode, decode, annotate, m) == AnnotateWindows(Windows(encode(Strip(line)), m), decode, annotate)
    ensures |Windows(encode(Strip(line)), m)| >= 2
  {
    WindowCountBounds(encode(Strip(line)), m);
  }

  /** Empty text yields no skills, whatever the tokenizer and the model do. */
  lemma EmptyTextNoSkills(encode: string -> seq<int>, decode: seq<int> -> string,
                          annotate: string -> seq<Token>, m: int)
    requires m > 0
    ensures Merge(Entities(Split("", '\n'), encode, decode, annotate, m)) == []
  {
    assert Split("", '\n') == [""];
    assert [""][..0] == [];
    assert IsBlank("");
  }
}
