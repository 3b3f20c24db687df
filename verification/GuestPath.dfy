/** Lexical paths inside the sandbox (crates/mc-core/src/files.rs). */
module GuestPath {
  import opened Basics

  /** The segments between slashes; there is always at least one. */
  function Split(s: string): (r: seq<string>)
    ensures |r| >= 1
  {
    if s == "" then [""]
    else
      var rest := Split(s[1..]);
      if s[0] == '/' then [""] + rest else [[s[0]] + rest[0]] + rest[1..]
  }

  function JoinParts(parts: seq<string>): string {
    if parts == [] then "" else if |parts| == 1 then parts[0] else parts[0] + "/" + JoinParts(parts[1..])
  }

  /** What one segment does to the stack. */
  function Step(parts: seq<string>, part: string): seq<string> {
    if part == "" || part == "." then parts
    else if part == ".." then if parts == [] then [] else parts[..|parts| - 1]
    else parts + [part]
  }

  function StepAll(parts: seq<string>, segments: seq<string>): seq<string>
    decreases |segments|
  {
    if segments == [] then parts else StepAll(Step(parts, segments[0]), segments[1..])
  }

  /** The normalised path as a list of names. */
  function Names(path: string): seq<string> { StepAll([], Split(path)) }

  function Absolute(names: seq<string>): string { "/" + JoinParts(names) }

  method Normalize(path: string) returns (r: string)
    ensures r == Absolute(Names(path))
  {
    var segments := Split(path);
    var parts: seq<string> := [];
    for i := 0 to |segments|
      invariant StepAll(parts, segments[i..]) == Names(path)
    {
      assert segments[i..][1..] == segments[i + 1..];
      var part := segments[i];
      if part == "" || part == "." {
      } else if part == ".." {
        if parts != [] { parts := parts[..|parts| - 1]; }
      } else {
        parts := parts + [part];
      }
    }
    return Absolute(parts);
  }

  method Join(dir: string, name: string) returns (r: string)
    ensures r == Absolute(Names(dir + "/" + name))
    ensures IsName(name) ==> r == Absolute(Names(dir) + [name])
  {
    if IsName(name) { EachSegment(dir, name); }
    r := Normalize(dir + "/" + name);
  }

  method Parent(path: string) returns (r: Option<string>)
    ensures r == if Names(path) == [] then None else Some(Absolute(Names(path)[..|Names(path)| - 1]))
  {
    var normal := Normalize(path);
    NamesAreClean(path);
    RootIsEmpty(Names(path));
    if normal == "/" {
      return None;
    }
    var up := Normalize(normal + "/..");
    NamesOfAbsoluteThen(Names(path), "..");
    SplitAt("..", "");
    assert normal + "/.." == Absolute(Names(path)) + "/" + "..";
    assert StepAll(Names(path), [".."]) == StepAll(Step(Names(path), ".."), []);
    return Some(up);
  }

  // ---------------------------------------------------------------- names without tricks

  predicate IsName(p: string) { p != "" && p != "." && p != ".." && '/' !in p }

  predicate Clean(parts: seq<string>) { forall i :: 0 <= i < |parts| ==> IsName(parts[i]) }

  lemma {:induction false} SplitHasNoSlash(s: string)
    ensures forall i :: 0 <= i < |Split(s)| ==> '/' !in Split(s)[i]
  {
    if s == "" {
    } else {
      SplitHasNoSlash(s[1..]);
    }
  }

  lemma {:induction false} StepsStayClean(parts: seq<string>, segments: seq<string>)
    requires Clean(parts) && forall i :: 0 <= i < |segments| ==> '/' !in segments[i]
    ensures Clean(StepAll(parts, segments))
    decreases |segments|
  {
    if segments == [] {
    } else {
      StepsStayClean(Step(parts, segments[0]), segments[1..]);
    }
  }

  lemma NamesAreClean(path: string)
    ensures Clean(Names(path))
  {
    SplitHasNoSlash(path);
    StepsStayClean([], Split(path));
  }

  lemma {:induction false} StepAllConcat(parts: seq<string>, a: seq<string>, b: seq<string>)
    ensures StepAll(parts, a + b) == StepAll(StepAll(parts, a), b)
    decreases |a|
  {
    hide Step;
    if a == [] {
      assert a + b == b;
    } else {
      StepAllConcat(Step(parts, a[0]), a[1..], b);
      assert (a + b)[1..] == a[1..] + b;
    }
  }

  lemma {:induction false} CleanStepsAppend(parts: seq<string>, names: seq<string>)
    requires Clean(names)
    ensures StepAll(parts, names) == parts + names
    decreases |names|
  {
    if names == [] {
      assert parts + names == parts;
    } else {
      assert IsName(names[0]);
      CleanStepsAppend(parts + [names[0]], names[1..]);
      assert parts + [names[0]] + names[1..] == parts + names;
    }
  }

  /** Splitting at a slash that was just put in. */
  lemma {:induction false} SplitAt(a: string, b: string)
    requires '/' !in a
    ensures Split(a) == [a] && Split(a + "/" + b) == [a] + Split(b)
    decreases |a|
  {
    if a == "" {
      assert a + "/" + b == "/" + b;
    } else {
      assert '/' !in a[1..];
      SplitAt(a[1..], b);
      assert (a + "/" + b)[1..] == a[1..] + "/" + b;
      assert [a[0]] + a[1..] == a;
    }
  }

  lemma {:induction false} SplitJoined(names: seq<string>, tail: string)
    requires Clean(names) && names != []
    ensures Split(JoinParts(names)) == names
    ensures Split(JoinParts(names) + "/" + tail) == names + Split(tail)
    decreases |names|
  {
    hide Split;
    assert IsName(names[0]);
    if |names| == 1 {
      SplitAt(names[0], tail);
    } else {
      var rest := JoinParts(names[1..]);
      SplitAt(names[0], rest);
      SplitAt(names[0], rest + "/" + tail);
      SplitJoined(names[1..], tail);
      assert JoinParts(names) + "/" + tail == names[0] + "/" + (rest + "/" + tail);
      assert [names[0]] + names[1..] == names;
      assert [names[0]] + (names[1..] + Split(tail)) == names + Split(tail);
    }
  }

  /** Names survive printing and parsing: what is normal is left alone. */
  lemma NamesOfAbsolute(names: seq<string>)
    requires Clean(names)
    ensures Names(Absolute(names)) == names
  {
    SplitAt("", JoinParts(names));
    assert Absolute(names) == "" + "/" + JoinParts(names);
    assert Split(Absolute(names)) == [""] + Split(JoinParts(names));
    StepAllConcat([], [""], Split(JoinParts(names)));
    if names == [] {
      assert Split("") == [""];
    } else {
      SplitJoined(names, "");
      CleanStepsAppend([], names);
      assert [] + names == names;
    }
  }

  lemma NamesOfAbsoluteThen(names: seq<string>, tail: string)
    requires Clean(names)
    ensures Names(Absolute(names) + "/" + tail) == StepAll(names, Split(tail))
  {
    var joined := JoinParts(names);
    SplitAt("", joined + "/" + tail);
    assert Absolute(names) + "/" + tail == "" + "/" + (joined + "/" + tail);
    StepAllConcat([], [""], Split(joined + "/" + tail));
    if names == [] {
      SplitAt("", tail);
      StepAllConcat([], [""], Split(tail));
      assert joined + "/" + tail == "" + "/" + tail;
    } else {
      SplitJoined(names, tail);
      StepAllConcat([], names, Split(tail));
      CleanStepsAppend([], names);
      assert [] + names == names;
    }
  }

  lemma RootIsEmpty(names: seq<string>)
    requires Clean(names)
    ensures Absolute(names) == "/" <==> names == []
  {
    NamesOfAbsolute(names);
    NamesOfAbsolute([]);
  }

  /** Normalising twice is normalising once, and two paths normalise alike exactly when they
      name the same steps from the root. */
  lemma NormalizeIdempotent(path: string, other: string)
    ensures Absolute(Names(Absolute(Names(path)))) == Absolute(Names(path))
    ensures Absolute(Names(path)) == Absolute(Names(other)) <==> Names(path) == Names(other)
  {
    NamesAreClean(path);
    NamesAreClean(other);
    NamesOfAbsolute(Names(path));
    NamesOfAbsolute(Names(other));
  }

  /** Entering a child and going up again is where one started. */
  lemma ParentUndoesJoin(dir: string, name: string)
    requires IsName(name)
    ensures var child := Names(Absolute(Names(dir)) + "/" + name);
            child == Names(dir) + [name] && child[..|child| - 1] == Names(dir)
  {
    NamesAreClean(dir);
    NamesOfAbsoluteThen(Names(dir), name);
    SplitAt(name, "");
  }

  // ---------------------------------------------------------------- what each segment means

  lemma SplitStep(s: string)
    requires s != ""
    ensures var rest := Split(s[1..]);
            Split(s) == if s[0] == '/' then [""] + rest else [[s[0]] + rest[0]] + rest[1..]
  {
  }

  lemma {:induction false} SplitBoth(a: string, b: string)
    ensures Split(a + "/" + b) == Split(a) + Split(b)
    decreases |a|
  {
    var all := a + "/" + b;
    SplitStep(all);
    if a == "" {
      assert all[1..] == b && Split(a) == [""];
    } else {
      hide Split;
      SplitStep(a);
      SplitBoth(a[1..], b);
      assert all[1..] == a[1..] + "/" + b;
      FirstOfBoth(Split(a[1..]), Split(b), all[0]);
    }
  }

  lemma FirstOfBoth(rest: seq<string>, more: seq<string>, c: char)
    requires |rest| >= 1
    ensures [[c] + (rest + more)[0]] + (rest + more)[1..] == [[c] + rest[0]] + rest[1..] + more
    ensures [""] + (rest + more) == [""] + rest + more
  {
    assert (rest + more)[1..] == rest[1..] + more;
  }

  /** Reading a path in two parts. */
  lemma NamesOfBoth(a: string, b: string)
    ensures Names(a + "/" + b) == StepAll(Names(a), Split(b))
  {
    SplitBoth(a, b);
    StepAllConcat([], Split(a), Split(b));
  }

  /** What each segment of a path does, wherever it stands: a name goes down into it, `..` goes up
      again and stays at the root, and an empty segment or `.` does nothing. */
  lemma EachSegment(path: string, segment: string)
    requires '/' !in segment
    ensures segment == "" || segment == "." ==> Names(path + "/" + segment) == Names(path)
    ensures segment == ".." && Names(path) != [] ==> Names(path + "/" + segment) == Names(path)[..|Names(path)| - 1]
    ensures segment == ".." && Names(path) == [] ==> Names(path + "/" + segment) == []
    ensures IsName(segment) ==> Names(path + "/" + segment) == Names(path) + [segment]
    ensures Names("") == []
  {
    NamesOfBoth(path, segment);
    SplitAt(segment, "");
    assert StepAll(Names(path), [segment]) == StepAll(Step(Names(path), segment), []);
    assert Split("") == [""] && StepAll([], [""]) == StepAll(Step([], ""), []);
  }

  /** A detour into a directory and back changes nothing that comes after. */
  lemma DetoursCancel(path: string, name: string, rest: string)
    requires IsName(name)
    ensures Names(path + "/" + name + "/.." + "/" + rest) == Names(path + "/" + rest)
    ensures Names(path + "/." + "/" + rest) == Names(path + "/" + rest)
    ensures Names(path + "/" + "/" + rest) == Names(path + "/" + rest)
  {
    hide Names, StepAll;
    EachSegment(path, name);
    EachSegment(path + "/" + name, "..");
    EachSegment(path, ".");
    EachSegment(path, "");
    assert path + "/" + name + "/" + ".." == path + "/" + name + "/..";
    assert path + "/" + "." == path + "/.";
    assert path + "/" + "" == path + "/";
    NamesOfBoth(path + "/" + name + "/..", rest);
    NamesOfBoth(path + "/.", rest);
    NamesOfBoth(path + "/", rest);
    NamesOfBoth(path, rest);
  }
}
