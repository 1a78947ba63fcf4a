/** How a discovered class name becomes a task's runtime name:
    `"_".join(item.lower() for item in re.split(r"(?=[A-Z])", name[:-4]) if item)`. */
module TaskName {
  import opened Wrappers
  import opened Paths

  predicate IsUpper(c: char)
  {
    'A' <= c <= 'Z'
  }

  /** `str.lower` on one character, restricted to ASCII letters. */
  function LowerChar(c: char): char
  {
    if IsUpper(c) then (c as int + 32) as char else c
  }

  function Lower(s: string): (r: string)
    ensures |r| == |s|
  {
    if s == [] then [] else Lower(s[..|s| - 1]) + [LowerChar(s[|s| - 1])]
  }

  /** `re.split(r"(?=[A-Z])", s)`: the pieces between the zero-width matches
      before each upper-case letter; a match at position 0 yields a leading "". */
  function SplitBeforeUpper(s: string): (r: seq<string>)
    ensures |r| >= 1
    ensures s != [] ==> r[|r| - 1] != []
    ensures s == [] ==> r == [""]
  {
    if s == [] then [""]
    else
      var init := SplitBeforeUpper(s[..|s| - 1]);
      var c := s[|s| - 1];
      if IsUpper(c) then init + [[c]]
      else init[..|init| - 1] + [init[|init| - 1] + [c]]
  }

  /** `[item for item in pieces if item]`. */
  function NonEmpty(pieces: seq<string>): seq<string>
  {
    if pieces == [] then []
    else
      var last := pieces[|pieces| - 1];
      NonEmpty(pieces[..|pieces| - 1]) + (if last != [] then [last] else [])
  }

  function LowerAll(pieces: seq<string>): (r: seq<string>)
    ensures |r| == |pieces|
  {
    if pieces == [] then [] else LowerAll(pieces[..|pieces| - 1]) + [Lower(pieces[|pieces| - 1])]
  }

  /** `"_".join(parts)`. */
  function JoinUnderscore(parts: seq<string>): string
  {
    if parts == [] then []
    else if |parts| == 1 then parts[0]
    else JoinUnderscore(parts[..|parts| - 1]) + "_" + parts[|parts| - 1]
  }

  /** The runtime name of a class, or `None` for a class whose name does not
      end in "Task" (such a class is not a task). */
  function DeriveName(className: string): Option<string>
  {
    if EndsWith(className, "Task")
    then Some(Pipeline(className[..|className| - 4]))
    else None
  }

  /** Reference definition: lower-case every character and put one '_' before
      every upper-case letter that is not the first character. */
  function SnakeCase(s: string): string
  {
    if s == [] then []
    else
      var c := s[|s| - 1];
      SnakeCase(s[..|s| - 1]) + (if |s| > 1 && IsUpper(c) then "_" else "") + [LowerChar(c)]
  }

  lemma JoinExtendLast(parts: seq<string>, x: string, y: string)
    ensures JoinUnderscore(parts + [x + y]) == JoinUnderscore(parts + [x]) + y
  {
    if parts != [] {
      assert (parts + [x + y])[..|parts|] == parts;
      assert (parts + [x])[..|parts|] == parts;
    }
  }

  lemma JoinAppend(parts: seq<string>, x: string)
    requires parts != []
    ensures JoinUnderscore(parts + [x]) == JoinUnderscore(parts) + "_" + x
  {
    assert (parts + [x])[..|parts|] == parts;
  }

  lemma LowerAllAppend(parts: seq<string>, x: string)
    ensures LowerAll(parts + [x]) == LowerAll(parts) + [Lower(x)]
  {
    assert (parts + [x])[..|parts|] == parts;
  }

  lemma LowerAppend(s: string, c: char)
    ensures Lower(s + [c]) == Lower(s) + [LowerChar(c)]
  {
    assert (s + [c])[..|s|] == s;
  }

  lemma NonEmptyAppend(parts: seq<string>, x: string)
    ensures NonEmpty(parts + [x]) == NonEmpty(parts) + (if x != [] then [x] else [])
  {
    assert (parts + [x])[..|parts|] == parts;
  }

  lemma {:induction false} NonEmptySplitIsEmptyIff(s: string)
    ensures NonEmpty(SplitBeforeUpper(s)) == [] <==> s == []
  {
    if s != [] {
      var ps := SplitBeforeUpper(s);
      assert ps == ps[..|ps| - 1] + [ps[|ps| - 1]];
      NonEmptyAppend(ps[..|ps| - 1], ps[|ps| - 1]);
    }
  }

  /** The pipeline's result for `s`. */
  function Pipeline(s: string): string
  {
    JoinUnderscore(LowerAll(NonEmpty(SplitBeforeUpper(s))))
  }

  /** An upper-case letter opens a new piece. */
  lemma PipelineStepUpper(s: string)
    requires s != [] && IsUpper(s[|s| - 1])
    requires Pipeline(s[..|s| - 1]) == SnakeCase(s[..|s| - 1])
    ensures Pipeline(s) == SnakeCase(s)
  {
    var t := s[..|s| - 1];
    var c := s[|s| - 1];
    var init := SplitBeforeUpper(t);
    var q := NonEmpty(init);
    NonEmptyAppend(init, [c]);
    LowerAllAppend(q, [c]);
    assert Lower([c]) == [LowerChar(c)] by { LowerAppend([], c); }
    if t == [] {
      assert q == [];
    } else {
      NonEmptySplitIsEmptyIff(t);
      JoinAppend(LowerAll(q), [LowerChar(c)]);
    }
  }

  /** Any other first character is the first piece. */
  lemma PipelineStepFirst(s: string)
    requires |s| == 1 && !IsUpper(s[0])
    ensures Pipeline(s) == SnakeCase(s)
  {
    var c := s[0];
    assert s == [c];
    assert SplitBeforeUpper(s) == [[c]] by {
      assert s[..0] == [];
      assert [] + [c] == [c];
    }
    assert NonEmpty([[c]]) == [[c]] by { NonEmptyAppend([], [c]); }
    assert LowerAll([[c]]) == [Lower([c])] by { LowerAllAppend([], [c]); }
    assert Lower([c]) == [LowerChar(c)] by { LowerAppend([], c); }
  }

  /** Any other character extends the last piece. */
  lemma PipelineStepOther(s: string)
    requires |s| > 1 && !IsUpper(s[|s| - 1])
    requires Pipeline(s[..|s| - 1]) == SnakeCase(s[..|s| - 1])
    ensures Pipeline(s) == SnakeCase(s)
  {
    var t := s[..|s| - 1];
    var c := s[|s| - 1];
    var init := SplitBeforeUpper(t);
    var front := init[..|init| - 1];
    var last := init[|init| - 1];
    var qf := NonEmpty(front);
    assert init == front + [last];
    assert SplitBeforeUpper(s) == front + [last + [c]];
    assert NonEmpty(init) == qf + [last] by { NonEmptyAppend(front, last); }
    assert NonEmpty(SplitBeforeUpper(s)) == qf + [last + [c]] by { NonEmptyAppend(front, last + [c]); }
    assert LowerAll(qf + [last]) == LowerAll(qf) + [Lower(last)] by { LowerAllAppend(qf, last); }
    assert LowerAll(qf + [last + [c]]) == LowerAll(qf) + [Lower(last) + [LowerChar(c)]] by {
      LowerAllAppend(qf, last + [c]);
      LowerAppend(last, c);
    }
    JoinExtendLast(LowerAll(qf), Lower(last), [LowerChar(c)]);
    assert Pipeline(s) == Pipeline(t) + [LowerChar(c)];
    assert SnakeCase(s) == SnakeCase(t) + [LowerChar(c)];
  }

  /** The split/filter/lower/join pipeline computes the snake-case name. */
  lemma {:induction false} PipelineIsSnakeCase(s: string)
    ensures Pipeline(s) == SnakeCase(s)
  {
    if s != [] {
      PipelineIsSnakeCase(s[..|s| - 1]);
      if IsUpper(s[|s| - 1]) {
        PipelineStepUpper(s);
      } else if |s| == 1 {
        PipelineStepFirst(s);
      } else {
        PipelineStepOther(s);
      }
    }
  }

  /** A class named `<stem>Task` runs under the snake-case form of `<stem>`. */
  lemma DeriveNameOfTask(className: string)
    requires EndsWith(className, "Task")
    ensures DeriveName(className) == Some(SnakeCase(className[..|className| - 4]))
  {
    PipelineIsSnakeCase(className[..|className| - 4]);
  }
}
