/** What a command leaves on standard output: one entry per `console.log`
    (or `console.info`) call, holding exactly the text passed to it. */
module Output {
  import opened Js

  /** The lines written to standard output, and whether the command then failed
      (an exception reached its `catch`, which reports to standard error and exits with 1). */
  datatype Console = Console(stdout: seq<string>, failed: bool)

  /** Run `b` after `a`: nothing of `b` is printed once `a` has failed. */
  function Then(a: Console, b: Console): Console {
    if a.failed then a else Console(a.stdout + b.stdout, b.failed)
  }

  /** No line of `rendered` throws. */
  predicate AllRendered(rendered: seq<Option<string>>) {
    forall i :: 0 <= i < |rendered| ==> rendered[i].Some?
  }

  /** The lines of `stdout` from `offset` on are the rendered lines, in order, as far as
      `stdout` goes. */
  predicate PrintedAt(stdout: seq<string>, offset: nat, rendered: seq<Option<string>>) {
    forall i :: 0 <= i < |rendered| && offset + i < |stdout| ==> rendered[i] == Some(stdout[offset + i])
  }

  /** `stdout` ends just before a line of `rendered` (placed from `offset` on) that throws. */
  predicate StopsAt(stdout: seq<string>, offset: nat, rendered: seq<Option<string>>) {
    offset <= |stdout| < offset + |rendered| && rendered[|stdout| - offset].None?
  }

  /** Prints `rendered` in order; an entry that is None stands for a line whose
      construction throws, which stops the command before anything after it is printed. */
  function Emit(rendered: seq<Option<string>>): Console {
    if rendered == [] then Console([], false)
    else
      match rendered[0]
      case None => Console([], true)
      case Some(line) =>
        var rest := Emit(rendered[1..]);
        Console([line] + rest.stdout, rest.failed)
  }

  /** What Emit prints: the rendered lines up to the first that throws, and it fails exactly
      when one throws. */
  lemma {:induction false} EmitPrints(rendered: seq<Option<string>>)
    ensures var out := Emit(rendered);
      && |out.stdout| <= |rendered|
      && (forall i :: 0 <= i < |out.stdout| ==> rendered[i] == Some(out.stdout[i]))
      && (out.failed ==> |out.stdout| < |rendered| && rendered[|out.stdout|].None?)
      && (!out.failed ==> |out.stdout| == |rendered|)
  {
    if rendered != [] && rendered[0].Some? {
      EmitPrints(rendered[1..]);
    }
  }

  /** Emit after lines already printed: those stay first, then the rendered lines follow in
      order up to the first that throws, which is where the output ends; the command fails
      exactly when one throws. */
  lemma EmitAfter(head: seq<string>, rendered: seq<Option<string>>)
    ensures var out := Then(Console(head, false), Emit(rendered));
      && |head| <= |out.stdout| <= |head| + |rendered|
      && out.stdout[..|head|] == head
      && PrintedAt(out.stdout, |head|, rendered)
      && (!out.failed <==> AllRendered(rendered))
      && (!out.failed ==> |out.stdout| == |head| + |rendered|)
      && (out.failed ==> StopsAt(out.stdout, |head|, rendered))
  {
    EmitPrints(rendered);
  }

  /** Printing a heading, then one group of rendered lines, then another: the heading
      comes first, every line of the first group comes before any of the second, each
      group keeps its order, and printing stops at the first line that throws, with
      every line before it printed. */
  lemma EmitTwoGroups(head: seq<string>, first: seq<Option<string>>, second: seq<Option<string>>)
    ensures var out := Then(Then(Console(head, false), Emit(first)), Emit(second));
      && |head| <= |out.stdout| <= |head| + |first| + |second|
      && out.stdout[..|head|] == head
      && PrintedAt(out.stdout, |head|, first)
      && PrintedAt(out.stdout, |head| + |first|, second)
      && (!out.failed <==> AllRendered(first) && AllRendered(second))
      && (!out.failed ==> |out.stdout| == |head| + |first| + |second|)
      && (out.failed ==> StopsAt(out.stdout, |head|, first + second))
  {
    var a := Then(Console(head, false), Emit(first));
    EmitAfter(head, first);
    if !a.failed {
      EmitAfter(a.stdout, second);
      var out := Then(a, Emit(second));
      assert out.stdout == a.stdout + Emit(second).stdout;
    } else {
      EmitPrints(second);
    }
  }

  /** Printing the first rendered line and then the rest is printing them all. */
  lemma EmitFrom(rendered: seq<Option<string>>, k: nat)
    requires k < |rendered| && rendered[k].Some?
    ensures Emit(rendered[k..]) == Then(Console([rendered[k].value], false), Emit(rendered[k + 1..]))
  {
    assert rendered[k..][1..] == rendered[k + 1..];
  }

  /** The heading line the pairings and standings reports print before their body. */
  function Banner(title: string): string {
    ":loudspeaker: **" + title + "** :loudspeaker:\n"
  }
}
