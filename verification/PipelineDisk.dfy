/** The pipeline's stream on disk: every run of the workers, written over the
    generations of a rotated log. */
module PipelineDisk {
  import opened Basics
  import opened Pipeline
  import opened PipelineSafety
  import opened PipelineWrites
  import Rotation

  /** How many of the outputs the generations before group k hold; the content
      the first file was found with is not one of them. */
  function OutputsBefore(groups: seq<seq<Rotation.Output>>, k: nat): (n: int)
    requires k <= |groups|
    ensures n >= -1
  {
    |Concat(groups[..k])| - 1
  }

  /** The first line that is not in the generations before group k. */
  function LinesBefore(s: State, groups: seq<seq<Rotation.Output>>, k: nat): nat
    requires k <= |groups| && OutputsBefore(groups, k) <= |s.writes|
  {
    if OutputsBefore(groups, k) < 0 then 0 else Upto(s, OutputsBefore(groups, k))
  }

  lemma {:induction false} GroupRange<T>(groups: seq<seq<T>>, k: nat)
    requires k < |groups|
    ensures |Concat(groups[..k])| <= |Concat(groups[..k + 1])| <= |Concat(groups)|
    ensures groups[k] == Concat(groups)[|Concat(groups[..k])|..|Concat(groups[..k + 1])|]
  {
    ConcatSplit(groups, k + 1);
    assert groups[..k + 1] == groups[..k] + [groups[k]];
    ConcatAppend(groups[..k], groups[k]);
  }

  lemma TextsMiddle(outputs: seq<Rotation.Output>, i: nat, j: nat)
    requires i <= j <= |outputs|
    ensures Rotation.Texts(outputs[..j]) == Rotation.Texts(outputs[..i]) + Rotation.Texts(outputs[i..j])
  {
    hide Rotation.Texts;
    assert outputs[..j] == outputs[..i] + outputs[i..j];
    Rotation.TextsConcat(outputs[..i], outputs[i..j]);
  }

  lemma TextsRange(c: Setup, s: State, i: nat, j: nat)
    requires WritesOk(c, s) && i <= j <= |s.writes|
    ensures Upto(s, i) <= Upto(s, j) <= |s.lines|
    ensures Rotation.Texts(Outputs(s)[i..j]) == Concat(s.lines[Upto(s, i)..Upto(s, j)])
  {
    hide Concat, Rotation.Texts, WritesOk, Outputs, Upto;
    UptoGrows(c, s, i, j);
    ChunksCover(c, s, i);
    ChunksCover(c, s, j);
    ConcatUpTo(s.lines, Upto(s, i), Upto(s, j));
    TextsMiddle(Outputs(s), i, j);
    SameRest(Concat(s.lines[..Upto(s, i)]), Rotation.Texts(Outputs(s)[i..j]), Concat(s.lines[Upto(s, i)..Upto(s, j)]));
  }

  lemma SameRest(a: bytes, b: bytes, c: bytes)
    requires a + b == a + c
    ensures b == c
  {
    assert (a + b)[|a|..] == b && (a + c)[|a|..] == c;
  }

  lemma {:induction false} UptoGrows(c: Setup, s: State, i: nat, j: nat)
    requires WritesOk(c, s) && i <= j <= |s.writes|
    ensures Upto(s, i) <= Upto(s, j) <= |s.lines|
  {
    if i < j {
      UptoGrows(c, s, i, j - 1);
      ChunkLinks(c, s, j - 1);
    } else if i > 0 {
      ChunkLinks(c, s, i - 1);
    }
  }

  /** Generation k is a run of whole lines, after the content found in the case
      of the first; the next generation goes on where it ends. */
  ghost predicate IsLines(s: State, initial: bytes, groups: seq<seq<Rotation.Output>>, k: nat)
    requires k < |groups|
  {
    && OutputsBefore(groups, k) <= OutputsBefore(groups, k + 1) <= |s.writes|
    && LinesBefore(s, groups, k) <= LinesBefore(s, groups, k + 1) <= |s.lines|
    && Rotation.Texts(groups[k]) == (if k == 0 then initial else [])
                                    + Concat(s.lines[LinesBefore(s, groups, k)..LinesBefore(s, groups, k + 1)])
  }

  ghost predicate WholeGenerations(s: State, initial: bytes, groups: seq<seq<Rotation.Output>>) {
    forall k :: 0 <= k < |groups| ==> IsLines(s, initial, groups, k)
  }

  lemma FirstGeneration(c: Setup, s: State, first: Rotation.Output, groups: seq<seq<Rotation.Output>>)
    requires WritesOk(c, s) && groups != [] && groups[0] != [] && Concat(groups) == [first] + Outputs(s)
    ensures IsLines(s, first.text, groups, 0)
  {
    hide WritesOk, Rotation.Texts, Upto, Outputs;
    GroupRange(groups, 0);
    assert groups[..0] == [] && |Concat(groups[..0])| == 0;
    hide Concat;
    var j := OutputsBefore(groups, 1);
    assert groups[0] == [first] + Outputs(s)[0..j];
    Rotation.TextsConcat([first], Outputs(s)[0..j]);
    Rotation.TextsOfOne(first);
    TextsRange(c, s, 0, j);
    assert Upto(s, 0) == 0 by { UptoNothing(s); }
  }

  lemma LaterGeneration(c: Setup, s: State, first: Rotation.Output, groups: seq<seq<Rotation.Output>>, k: nat)
    requires WritesOk(c, s) && 0 < k < |groups| && groups[0] != [] && Concat(groups) == [first] + Outputs(s)
    ensures IsLines(s, first.text, groups, k)
  {
    hide WritesOk, Rotation.Texts, Upto, Outputs, Concat;
    LaterGroup(groups, first, Outputs(s), k);
    var i, j := OutputsBefore(groups, k), OutputsBefore(groups, k + 1);
    hide OutputsBefore;
    TextsRange(c, s, i, j);
    assert [] + Concat(s.lines[Upto(s, i)..Upto(s, j)]) == Concat(s.lines[Upto(s, i)..Upto(s, j)]);
  }

  /** All groups but the first are ranges of what follows the first element. */
  lemma LaterGroup(groups: seq<seq<Rotation.Output>>, first: Rotation.Output, outputs: seq<Rotation.Output>, k: nat)
    requires 0 < k < |groups| && groups[0] != [] && Concat(groups) == [first] + outputs
    ensures 0 <= OutputsBefore(groups, k) <= OutputsBefore(groups, k + 1) <= |outputs|
    ensures groups[k] == outputs[OutputsBefore(groups, k)..OutputsBefore(groups, k + 1)]
  {
    hide Concat;
    GroupRange(groups, k);
    GroupRange(groups, 0);
    GroupsBefore(groups, 1, k);
    ConcatNothing<Rotation.Output>();
    assert groups[..0] == [];
    Behind(first, outputs, |Concat(groups[..k])|, |Concat(groups[..k + 1])|);
  }

  lemma Behind<T>(x: T, xs: seq<T>, i: nat, j: nat)
    requires 1 <= i <= j <= |xs| + 1
    ensures ([x] + xs)[i..j] == xs[i - 1..j - 1]
  {
  }

  lemma GenerationsAreLines(c: Setup, s: State, initial: bytes, maxFileSize: int)
    requires WritesOk(c, s)
    ensures WholeGenerations(s, initial, Rotation.Split(initial, Outputs(s), maxFileSize))
  {
    hide WritesOk, IsLines, Rotation.Split;
    var groups := Rotation.Split(initial, Outputs(s), maxFileSize);
    Rotation.SplitConserves(initial, Outputs(s), maxFileSize);
    Rotation.FirstGroup(initial, Outputs(s), maxFileSize);
    forall k | 0 <= k < |groups|
      ensures IsLines(s, initial, groups, k)
    {
      if k == 0 {
        FirstGeneration(c, s, Rotation.Output(false, initial), groups);
      } else {
        LaterGeneration(c, s, Rotation.Output(false, initial), groups, k);
      }
    }
  }

  lemma UptoNothing(s: State)
    ensures Upto(s, 0) == 0
  {
  }

  lemma GroupsBefore<T>(groups: seq<seq<T>>, i: nat, k: nat)
    requires i <= k <= |groups|
    ensures |Concat(groups[..i])| <= |Concat(groups[..k])|
  {
    ConcatSplit(groups[..k], i);
    assert groups[..k][..i] == groups[..i];
  }

  /** For every run, started on a log with its backups and without rename
      failures: read oldest to newest, the files are a suffix of what was found
      and the lines written, and what is missing is the oldest generations;
      every generation is a run of whole lines. */
  lemma StreamOnDisk(c: Setup, actions: seq<Action>, start: Rotation.Store, found: seq<bytes>,
                     maxFileSize: int, maxBackups: int)
    requires c.Valid() && NonEmptyLines(c)
    requires Rotation.Holds(start.fs, maxBackups, found) && start.size == |start.fs[Rotation.Live].text|
    ensures var s := Run(c, Init(), actions);
            var disk := Rotation.EmitAll(start, Outputs(s), maxFileSize, maxBackups).fs;
            var keep := Rotation.Keep(maxBackups);
            var gens := Rotation.Generations(found, Outputs(s), maxFileSize);
            var first := if keep < |gens| then |gens| - 1 - keep else 0;
            && s.flushed <= |s.lines|
            && Concat(found) + Concat(s.lines[..s.flushed]) == Concat(gens[..first]) + Rotation.OnDisk(disk, keep)
    ensures var s, initial := Run(c, Init(), actions), found[|found| - 1];
            WholeGenerations(s, initial, Rotation.Split(initial, Outputs(s), maxFileSize))
  {
    var s := Run(c, Init(), actions);
    WriteRun(c, actions);
    RunInv(c, actions);
    hide Run;
    Rotation.DiskIsSuffix(start, found, Outputs(s), maxFileSize, maxBackups);
    WrittenIsOutputs(c, s);
    GenerationsAreLines(c, s, found[|found| - 1], maxFileSize);
  }

  lemma WrittenIsOutputs(c: Setup, s: State)
    requires WritesOk(c, s)
    ensures s.flushed <= |s.lines| && Rotation.Texts(Outputs(s)) == Concat(s.lines[..s.flushed])
  {
    ChunksCover(c, s, |s.writes|);
    assert Outputs(s)[..|s.writes|] == Outputs(s);
  }
}
