/** Output streams that keep their text and count its characters and lines as they are written. */
module Ochain {
  import opened Common

  function CountNewlines(s: string): (n: nat)
    ensures n <= |s|
  {
    if s == "" then 0 else CountNewlines(s[..|s| - 1]) + if s[|s| - 1] == '\n' then 1 else 0
  }

  lemma {:induction false} CountAppend(a: string, b: string)
    ensures CountNewlines(a + b) == CountNewlines(a) + CountNewlines(b)
  {
    if b == "" {
      AppendEmpty(a);
    } else {
      assert (a + b)[..|a + b| - 1] == a + b[..|b| - 1];
      CountAppend(a, b[..|b| - 1]);
    }
  }

  /** The lines of a text are the positions of its newlines. */
  lemma {:induction false} LinesAreNewlines(s: string)
    ensures CountNewlines(s) == |set i | 0 <= i < |s| && s[i] == '\n'|
  {
    if s != "" {
      var init, n := s[..|s| - 1], |s| - 1;
      LinesAreNewlines(init);
      assert forall i :: 0 <= i < n ==> init[i] == s[i];
      assert (set i | 0 <= i < |s| && s[i] == '\n') ==
             (set i | 0 <= i < |init| && init[i] == '\n') + if s[n] == '\n' then {n} else {};
    }
  }

  class CounterOchain {
    var sink: string
    var characters: nat
    var lines: nat
    /** The counter the stream was started with. */
    ghost const startCharacters: nat
    ghost const startLines: nat

    ghost predicate Valid()
      reads this
    {
      characters == startCharacters + |sink| && lines == startLines + CountNewlines(sink)
    }

    constructor (characters: nat, lines: nat)
      ensures Valid() && sink == "" && startCharacters == characters && startLines == lines
    {
      sink := "";
      this.characters, this.lines := characters, lines;
      startCharacters, startLines := characters, lines;
    }

    method Write(s: string)
      requires Valid()
      modifies this
      ensures Valid() && sink == old(sink) + s
    {
      CountAppend(sink, s);
      sink := sink + s;
      characters := characters + |s|;
      for i := 0 to |s|
        invariant sink == old(sink) + s && characters == old(characters) + |s|
        invariant lines == old(lines) + CountNewlines(s[..i])
      {
        assert s[..i + 1][..i] == s[..i];
        if s[i] == '\n' {
          lines := lines + 1;
        }
      }
      TakeAll(s);
    }

    /** `merge_into`: the whole text, behind a newline if asked for. */
    method MergeInto(target: CounterOchain, insertNl: bool)
      requires target.Valid() && target != this
      modifies target
      ensures target.Valid() && target.sink == old(target.sink) + (if insertNl then "\n" else "") + sink
    {
      if insertNl {
        target.Write("\n");
      } else {
        AppendEmpty(target.sink);
      }
      target.Write(sink);
    }
  }

  /** Names separated by commas, written one by one. */
  method WriteNames(names: seq<string>, coc: CounterOchain)
    requires coc.Valid()
    modifies coc
    ensures coc.Valid() && coc.sink == old(coc.sink) + Join(names, ",")
  {
    ghost var before := coc.sink;
    NoneJoined(before, names);
    hide *;
    var first := true;
    for i := 0 to |names|
      invariant coc.Valid() && coc.sink == before + Join(names[..i], ",")
      invariant first <==> i == 0
    {
      ghost var middle := coc.sink;
      if !first {
        coc.Write(",");
      }
      coc.Write(names[i]);
      OneMoreJoined(before, names, i, middle, coc.sink);
      first := false;
    }
    TakeAll(names);
  }

  lemma NoneJoined(before: string, names: seq<string>)
    ensures before == before + Join(names[..0], ",")
  {
    AppendEmpty(before);
  }

  lemma OneMoreJoined(before: string, names: seq<string>, i: nat, middle: string, after: string)
    requires i < |names| && middle == before + Join(names[..i], ",")
    requires after == (if i == 0 then middle else middle + ",") + names[i]
    ensures after == before + Join(names[..i + 1], ",")
  {
    TakeSnoc(names, i);
    if i == 0 {
      TakeNone(names);
      AppendEmpty([names[i]]);
      AppendEmpty(before);
    } else {
      JoinSnoc(names[..i], names[i], ",");
      hide Join;
      AppendAssoc(before, Join(names[..i], ","), ",");
      AppendAssoc(before, Join(names[..i], ",") + ",", names[i]);
    }
  }
}
