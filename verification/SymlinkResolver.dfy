/** Following symlinks by hand, inside the root (crates/mc-sandbox/src/fs.rs).

    The resolver keeps one stack of names still to walk. A link pushes its target onto that
    stack. The reference is the textbook one: a recursive walk in a changed root, in which
    a link is resolved completely before the walk goes on. */
module SymlinkResolver {
  import opened GuestPath

  const MAX_LINK_HOPS: nat := 40

  /** What `lstat` and `readlink` say about a host path. */
  datatype Entry = Missing(reason: string) | Real | Link(target: string) | UnreadableLink(reason: string)

  datatype Error = NotThere(guest: string, reason: string) | NotRead(reason: string) | TooManyLinks(guest: string)

  datatype Result<+T> = Ok(value: T) | Err(error: Error)

  type Names = seq<string>

  /** The components of a link target: empty and `.` segments are not components. */
  function Parts(segments: seq<string>): Names {
    if segments == [] then []
    else (if segments[0] == "" || segments[0] == "." then [] else [segments[0]]) + Parts(segments[1..])
  }

  function Components(target: string): Names { Parts(Split(target)) }

  predicate IsAbsolute(target: string) { target != "" && target[0] == '/' }

  // ---------------------------------------------------------------- the reference

  /** The tree as a process inside sees it: `[]` is its root. */
  type Guest = Names -> Entry

  /** Where a link leads: from the root, or from the directory holding it. A target that already
      is a host path into the root means the guest path below the root. */
  datatype Destination = Destination(fromRoot: bool, steps: Names)

  function Leads(root: Names, target: string): Destination {
    if IsAbsolute(target) && root <= Components(target) then Destination(true, Components(target)[|root|..])
    else Destination(IsAbsolute(target), Components(target))
  }

  datatype Walked = At(place: Names, left: nat) | Lost(place: Names, reason: string) | Unread(reason: string) | Exhausted

  function Up(place: Names): Names { if place == [] then [] else place[..|place| - 1] }

  /** Walk `steps` from `place`, with `left` links still allowed. */
  function Walk(guest: Guest, leads: string -> Destination, place: Names, steps: Names, left: nat): (r: Walked)
    ensures r.At? ==> r.left <= left
    decreases left, |steps|
  {
    if steps == [] then At(place, left)
    else if steps[0] == ".." then Walk(guest, leads, Up(place), steps[1..], left)
    else
      var next := place + [steps[0]];
      match guest(next)
      case Missing(reason) => Lost(next, reason)
      case Real => Walk(guest, leads, next, steps[1..], left)
      case Link(target) =>
        if left == 0 then Exhausted
        else
          var to := leads(target);
          var reached := Walk(guest, leads, if to.fromRoot then [] else place, to.steps, left - 1);
          if reached.At? then Walk(guest, leads, reached.place, steps[1..], reached.left) else reached
      case UnreadableLink(reason) => if left == 0 then Exhausted else Unread(reason)
  }

  /** Walking on from wherever a first walk ended. */
  function Then(guest: Guest, leads: string -> Destination, first: Walked, steps: Names): Walked {
    if first.At? then Walk(guest, leads, first.place, steps, first.left) else first
  }

  lemma {:induction false} WalkConcat(guest: Guest, leads: string -> Destination, place: Names, a: Names, b: Names, left: nat)
    ensures Walk(guest, leads, place, a + b, left) == Then(guest, leads, Walk(guest, leads, place, a, left), b)
    decreases left, |a|
  {
    if a == [] {
      assert a + b == b;
    } else {
      assert (a + b)[1..] == a[1..] + b;
      if a[0] == ".." {
        WalkConcat(guest, leads, Up(place), a[1..], b, left);
      } else {
        var next := place + [a[0]];
        match guest(next)
        case Missing(_) =>
        case Real => WalkConcat(guest, leads, next, a[1..], b, left);
        case Link(target) =>
          if left == 0 {
          } else {
            var to := leads(target);
            var reached := Walk(guest, leads, if to.fromRoot then [] else place, to.steps, left - 1);
            if reached.At? { WalkConcat(guest, leads, reached.place, a[1..], b, reached.left); }
          }
        case UnreadableLink(_) =>
      }
    }
  }

  /** A link on top of the stack: pushing its target is resolving it first. */
  lemma LinkExpands(guest: Guest, leads: string -> Destination, place: Names, name: string, rest: Names, left: nat)
    requires name != ".." && guest(place + [name]).Link? && left > 0
    ensures var to := leads(guest(place + [name]).target);
            Walk(guest, leads, place, [name] + rest, left)
            == Walk(guest, leads, if to.fromRoot then [] else place, to.steps + rest, left - 1)
  {
    var to := leads(guest(place + [name]).target);
    assert ([name] + rest)[1..] == rest;
    WalkConcat(guest, leads, if to.fromRoot then [] else place, to.steps, rest, left - 1);
  }

  function Reverse(s: Names): (r: Names)
    ensures |r| == |s|
  {
    if s == [] then [] else [s[|s| - 1]] + Reverse(s[..|s| - 1])
  }

  lemma ReverseSnoc(s: Names, x: string)
    ensures Reverse(s + [x]) == [x] + Reverse(s)
  {
    assert (s + [x])[..|s|] == s;
  }

  lemma {:induction false} ReverseConcat(a: Names, b: Names)
    ensures Reverse(a + b) == Reverse(b) + Reverse(a)
    decreases |b|
  {
    if b == [] {
      assert a + b == a;
    } else {
      hide Reverse;
      var front, x := b[..|b| - 1], b[|b| - 1];
      ReverseConcat(a, front);
      ReverseSnoc(a + front, x);
      ReverseSnoc(front, x);
      assert a + b == a + front + [x] && b == front + [x];
      assert [x] + (Reverse(front) + Reverse(a)) == [x] + Reverse(front) + Reverse(a);
    }
  }

  lemma {:induction false} ReverseTwice(s: Names)
    ensures Reverse(Reverse(s)) == s
  {
    if s == [] {
    } else {
      ReverseTwice(s[..|s| - 1]);
      ReverseConcat([s[|s| - 1]], Reverse(s[..|s| - 1]));
      assert Reverse([s[|s| - 1]]) == [s[|s| - 1]] + Reverse([]);
    }
  }

  // ---------------------------------------------------------------- the object

  class RootedFs {
    const root: Names
    const lstat: Names -> Entry

    constructor (root: Names, lstat: Names -> Entry)
      ensures this.root == root && this.lstat == lstat
    {
      this.root, this.lstat := root, lstat;
    }

    function GuestTree(): Guest { (g: Names) => lstat(root + g) }

    function LinkTargets(): string -> Destination { (target: string) => Leads(root, target) }

    /** The host path `guest` stands for, or why there is none. */
    function Resolved(guest: string): Result<Names> {
      match Walk(GuestTree(), LinkTargets(), [], GuestPath.Names(guest), MAX_LINK_HOPS)
      case At(place, _) => Ok(root + place)
      case Lost(place, reason) => Err(NotThere(Absolute(GuestPath.Names(Absolute(place))), reason))
      case Unread(reason) => Err(NotRead(reason))
      case Exhausted => Err(TooManyLinks(guest))
    }

    method GuestOf(host: Names) returns (r: string)
      requires root <= host
      ensures r == Absolute(GuestPath.Names(Absolute(host[|root|..])))
    {
      r := Normalize(Absolute(host[|root|..]));
    }

    /** Where a link met in `resolved` leads, and through which components. */
    method Follow(resolved: Names, target: string) returns (base: Names, rest: Names)
      requires root <= resolved
      ensures rest == Leads(root, target).steps
      ensures base == if Leads(root, target).fromRoot then root else resolved
    {
      if IsAbsolute(target) && root <= Components(target) {
        base, rest := root, Components(target)[|root|..];
      } else if IsAbsolute(target) {
        base, rest := root, Components(target);
      } else {
        base, rest := resolved, Components(target);
      }
    }

    method Resolve(guest: string) returns (r: Result<Names>)
      ensures r == Resolved(guest)
    {
      hide Walk, GuestPath.Names, Absolute, Leads, Reverse;
      var steps := GuestPath.Names(guest);
      ReverseTwice(steps);
      var pending := Reverse(steps);
      var resolved := root;
      var hops: nat := 0;
      ghost var tree, leads := GuestTree(), LinkTargets();
      ghost var goal := Walk(tree, leads, [], steps, MAX_LINK_HOPS);
      assert resolved[|root|..] == [];
      while pending != []
        invariant root <= resolved && hops <= MAX_LINK_HOPS
        invariant Walk(tree, leads, resolved[|root|..], Reverse(pending), MAX_LINK_HOPS - hops) == goal
        decreases MAX_LINK_HOPS - hops, |pending|
      {
        var part := pending[|pending| - 1];
        ghost var place := resolved[|root|..];
        TopOfStack(pending);
        pending := pending[..|pending| - 1];
        ghost var rest := Reverse(pending);
        WalkStep(tree, leads, place, part, rest, MAX_LINK_HOPS - hops);
        if part == ".." {
          if resolved != root {
            resolved := resolved[..|resolved| - 1];
          }
          assert resolved[|root|..] == Up(place);
          continue;
        }
        var candidate := resolved + [part];
        assert candidate[|root|..] == place + [part] && root + (place + [part]) == candidate;
        match lstat(candidate) {
          case Missing(reason) =>
            var name := GuestOf(candidate);
            return Err(NotThere(name, reason));
          case Real =>
            resolved := candidate;
          case Link(target) =>
            hops := hops + 1;
            if hops > MAX_LINK_HOPS {
              return Err(TooManyLinks(guest));
            }
            LinkExpands(tree, leads, place, part, rest, MAX_LINK_HOPS - hops + 1);
            var base, expanded := Follow(resolved, target);
            resolved := base;
            assert resolved[|root|..] == if leads(target).fromRoot then [] else place;
            ReverseTwice(expanded);
            ReverseConcat(pending, Reverse(expanded));
            pending := pending + Reverse(expanded);
          case UnreadableLink(reason) =>
            hops := hops + 1;
            if hops > MAX_LINK_HOPS {
              return Err(TooManyLinks(guest));
            }
            return Err(NotRead(reason));
        }
      }
      WalkNothing(tree, leads, resolved[|root|..], MAX_LINK_HOPS - hops, pending);
      assert resolved == root + resolved[|root|..];
      // The source checks once more that the result lies under the root; it always does.
      if !(root <= resolved) {
        assert false;
      }
      return Ok(resolved);
    }
  }

  lemma TopOfStack(pending: Names)
    requires pending != []
    ensures Reverse(pending) == [pending[|pending| - 1]] + Reverse(pending[..|pending| - 1])
  {
  }

  lemma WalkNothing(guest: Guest, leads: string -> Destination, place: Names, left: nat, pending: Names)
    requires pending == []
    ensures Walk(guest, leads, place, Reverse(pending), left) == At(place, left)
  {
  }

  lemma WalkStep(guest: Guest, leads: string -> Destination, place: Names, name: string, rest: Names, left: nat)
    ensures var all := Walk(guest, leads, place, [name] + rest, left);
            if name == ".." then all == Walk(guest, leads, Up(place), rest, left)
            else
              match guest(place + [name])
              case Missing(reason) => all == Lost(place + [name], reason)
              case Real => all == Walk(guest, leads, place + [name], rest, left)
              case Link(_) => left == 0 ==> all == Exhausted
              case UnreadableLink(reason) => all == if left == 0 then Exhausted else Unread(reason)
  {
    assert ([name] + rest)[1..] == rest;
  }

  // ---------------------------------------------------------------- what resolving means

  /** Every directory on the way, and the place itself, is there and is not a link. */
  predicate LinkFree(guest: Guest, place: Names) {
    forall k :: 1 <= k <= |place| ==> guest(place[..k]).Real?
  }

  lemma {:induction false} WalkIsLinkFree(guest: Guest, leads: string -> Destination, place: Names, steps: Names, left: nat)
    requires LinkFree(guest, place)
    ensures var r := Walk(guest, leads, place, steps, left);
            r.At? ==> LinkFree(guest, r.place)
    decreases left, |steps|
  {
    if steps == [] {
    } else {
      if steps[0] == ".." {
        UpIsLinkFree(guest, place);
        WalkIsLinkFree(guest, leads, Up(place), steps[1..], left);
      } else {
        var next := place + [steps[0]];
        match guest(next)
        case Missing(_) =>
        case Real =>
          DownIsLinkFree(guest, place, steps[0]);
          WalkIsLinkFree(guest, leads, next, steps[1..], left);
        case Link(target) =>
          if left == 0 {
          } else {
            var to := leads(target);
            var base := if to.fromRoot then [] else place;
            WalkIsLinkFree(guest, leads, base, to.steps, left - 1);
            var reached := Walk(guest, leads, base, to.steps, left - 1);
            if reached.At? { WalkIsLinkFree(guest, leads, reached.place, steps[1..], reached.left); }
          }
        case UnreadableLink(_) =>
      }
    }
  }

  lemma UpIsLinkFree(guest: Guest, place: Names)
    requires LinkFree(guest, place)
    ensures LinkFree(guest, Up(place))
  {
    forall k | 1 <= k <= |Up(place)| ensures guest(Up(place)[..k]).Real? { assert Up(place)[..k] == place[..k]; }
  }

  lemma DownIsLinkFree(guest: Guest, place: Names, name: string)
    requires LinkFree(guest, place) && guest(place + [name]).Real?
    ensures LinkFree(guest, place + [name])
  {
    var next := place + [name];
    forall k | 1 <= k <= |next| ensures guest(next[..k]).Real? {
      if k <= |place| { assert next[..k] == place[..k]; } else { assert next[..k] == next; }
    }
  }

  /** Every name met on a walk is a plain name. */
  ghost predicate CleanTargets(leads: string -> Destination) {
    forall target :: Steps(leads(target).steps)
  }

  predicate Steps(steps: Names) { forall i :: 0 <= i < |steps| ==> steps[i] == ".." || IsName(steps[i]) }

  lemma {:induction false} WalkIsClean(guest: Guest, leads: string -> Destination, place: Names, steps: Names, left: nat)
    requires Clean(place) && Steps(steps) && CleanTargets(leads)
    ensures var r := Walk(guest, leads, place, steps, left);
            r.At? ==> Clean(r.place)
    decreases left, |steps|
  {
    if steps == [] {
    } else {
      hide IsName;
      assert steps[0] == ".." || IsName(steps[0]);
      if steps[0] == ".." {
        WalkIsClean(guest, leads, Up(place), steps[1..], left);
      } else {
        var next := place + [steps[0]];
        match guest(next)
        case Missing(_) =>
        case Real => WalkIsClean(guest, leads, next, steps[1..], left);
        case Link(target) =>
          if left == 0 {
          } else {
            var to := leads(target);
            var base := if to.fromRoot then [] else place;
            WalkIsClean(guest, leads, base, to.steps, left - 1);
            var reached := Walk(guest, leads, base, to.steps, left - 1);
            if reached.At? { WalkIsClean(guest, leads, reached.place, steps[1..], reached.left); }
          }
        case UnreadableLink(_) =>
      }
    }
  }

  lemma {:induction false} PartsAreSteps(segments: seq<string>)
    requires forall i :: 0 <= i < |segments| ==> '/' !in segments[i]
    ensures Steps(Parts(segments))
  {
    if segments == [] {
    } else {
      PartsAreSteps(segments[1..]);
    }
  }

  lemma TargetsAreClean(fs: RootedFs)
    ensures CleanTargets(fs.LinkTargets())
  {
    forall target ensures Steps(fs.LinkTargets()(target).steps) {
      SplitHasNoSlash(target);
      PartsAreSteps(Split(target));
    }
  }

  /** Whatever the links say, a resolved path lies under the root, is spelled with plain names,
      and neither it nor any directory between it and the root is a link. */
  lemma ResolvedIsInside(fs: RootedFs, guest: string)
    requires fs.Resolved(guest).Ok?
    ensures var host := fs.Resolved(guest).value;
            && fs.root <= host && Clean(host[|fs.root|..])
            && forall k :: |fs.root| < k <= |host| ==> fs.lstat(host[..k]).Real?
  {
    hide Walk, GuestPath.Names;
    NamesAreClean(guest);
    TargetsAreClean(fs);
    var names := GuestPath.Names(guest);
    assert forall i :: 0 <= i < |names| ==> IsName(names[i]);
    WalkIsLinkFree(fs.GuestTree(), fs.LinkTargets(), [], names, MAX_LINK_HOPS);
    WalkIsClean(fs.GuestTree(), fs.LinkTargets(), [], names, MAX_LINK_HOPS);
    var place := Walk(fs.GuestTree(), fs.LinkTargets(), [], names, MAX_LINK_HOPS).place;
    var host := fs.root + place;
    assert host[|fs.root|..] == place;
    forall k | |fs.root| < k <= |host| ensures fs.lstat(host[..k]).Real? {
      assert fs.GuestTree()(place[..k - |fs.root|]).Real?;
      assert host[..k] == fs.root + place[..k - |fs.root|];
    }
  }

  lemma {:induction false} WalkStraight(guest: Guest, leads: string -> Destination, place: Names, steps: Names, left: nat)
    requires Clean(steps) && LinkFree(guest, place + steps)
    ensures Walk(guest, leads, place, steps, left) == At(place + steps, left)
    decreases |steps|
  {
    if steps == [] {
      assert place + steps == place;
    } else {
      assert IsName(steps[0]);
      assert (place + steps)[..|place| + 1] == place + [steps[0]];
      assert place + [steps[0]] + steps[1..] == place + steps;
      WalkStraight(guest, leads, place + [steps[0]], steps[1..], left);
    }
  }

  /** Resolving a resolved path is a round trip: printed as a guest path it resolves to itself. */
  lemma ResolveIdempotent(fs: RootedFs, guest: string)
    requires fs.Resolved(guest).Ok?
    ensures var host := fs.Resolved(guest).value;
            fs.Resolved(Absolute(host[|fs.root|..])) == Ok(host)
  {
    hide Walk, GuestPath.Names, Absolute;
    ResolvedIsInside(fs, guest);
    var host := fs.Resolved(guest).value;
    var place := host[|fs.root|..];
    NamesOfAbsolute(place);
    assert fs.root + place == host;
    forall k | 1 <= k <= |place| ensures fs.GuestTree()(place[..k]).Real? {
      assert fs.root + place[..k] == host[..|fs.root| + k];
    }
    assert [] + place == place;
    WalkStraight(fs.GuestTree(), fs.LinkTargets(), [], place, MAX_LINK_HOPS);
  }

  /** The bound only ever turns an answer into "too many links": with more hops every other
      outcome stays, and the hops spent are the same. */
  lemma {:induction false} MoreHops(
      guest: Guest, leads: string -> Destination, place: Names, steps: Names, left: nat, more: nat)
    ensures var r := Walk(guest, leads, place, steps, left);
            var s := Walk(guest, leads, place, steps, left + more);
            && (r.At? ==> s == At(r.place, r.left + more))
            && (r.Lost? || r.Unread? ==> s == r)
    decreases left, |steps|, 1
  {
    if steps == [] {
    } else {
      hide Walk;
      var first, rest := [steps[0]], steps[1..];
      assert steps == first + rest;
      WalkConcat(guest, leads, place, first, rest, left);
      WalkConcat(guest, leads, place, first, rest, left + more);
      MoreHopsForOne(guest, leads, place, steps[0], left, more);
      var r := Walk(guest, leads, place, first, left);
      if r.At? { MoreHops(guest, leads, r.place, rest, r.left, more); }
    }
  }

  lemma {:induction false} MoreHopsForOne(
      guest: Guest, leads: string -> Destination, place: Names, step: string, left: nat, more: nat)
    ensures var r := Walk(guest, leads, place, [step], left);
            var s := Walk(guest, leads, place, [step], left + more);
            && (r.At? ==> s == At(r.place, r.left + more))
            && (r.Lost? || r.Unread? ==> s == r)
    decreases left, 1, 0
  {
    if step != ".." && guest(place + [step]).Link? && left > 0 {
      var to := leads(guest(place + [step]).target);
      MoreHops(guest, leads, if to.fromRoot then [] else place, to.steps, left - 1, more);
    }
  }

  /** A host path back into the root, which hard-link emulation leaves behind, leads where the
      guest path below the root leads. */
  lemma HostLinksLeadInside(root: Names, inner: Names)
    requires Clean(root) && Clean(inner)
    ensures Leads(root, Absolute(root + inner)) == Destination(true, inner)
  {
    hide JoinParts;
    ComponentsOfAbsolute(root + inner);
    assert (root + inner)[|root|..] == inner;
  }

  lemma {:induction false} PartsOfClean(names: Names)
    requires Clean(names)
    ensures Parts(names) == names && Parts([""] + names) == names
  {
    assert ([""] + names)[1..] == names;
    if names == [] {
    } else {
      assert IsName(names[0]);
      PartsOfClean(names[1..]);
    }
  }

  lemma ComponentsOfAbsolute(names: Names)
    requires Clean(names)
    ensures Components(Absolute(names)) == names && IsAbsolute(Absolute(names))
  {
    SplitAt("", JoinParts(names));
    assert Absolute(names) == "" + "/" + JoinParts(names);
    if names == [] {
      assert Split("") == [""];
      PartsOfClean([]);
      assert Parts([""] + [""]) == [] by {
        assert ([""] + [""])[1..] == [""] && [""][1..] == [];
      }
    } else {
      SplitJoined(names, "");
      PartsOfClean(names);
    }
  }

  // ---------------------------------------------------------------- where a link leads

  /** From here on, `steps` lie ahead and `left` links may be followed. */
  function From(fs: RootedFs, place: Names, steps: Names, left: nat): Walked {
    Walk(fs.GuestTree(), fs.LinkTargets(), place, steps, left)
  }

  /** Where the walk goes on after a link: a relative target from the directory the link is in, an
      absolute one from the root; and when an absolute one already begins with the host's path of
      the root, only what is below that counts. Every link costs one hop. */
  lemma WhereLinksLead(fs: RootedFs, place: Names, name: string, target: string, rest: Names, left: nat)
    requires name != ".." && left > 0 && fs.lstat(fs.root + (place + [name])) == Link(target)
    ensures (target == "" || target[0] != '/') ==>
              From(fs, place, [name] + rest, left) == From(fs, place, Components(target) + rest, left - 1)
    ensures target != "" && target[0] == '/' && !(fs.root <= Components(target)) ==>
              From(fs, place, [name] + rest, left) == From(fs, [], Components(target) + rest, left - 1)
    ensures forall below :: target != "" && target[0] == '/' && Components(target) == fs.root + below ==>
              From(fs, place, [name] + rest, left) == From(fs, [], below + rest, left - 1)
  {
    hide Walk, Components;
    LinkExpands(fs.GuestTree(), fs.LinkTargets(), place, name, rest, left);
    forall below | target != "" && target[0] == '/' && Components(target) == fs.root + below
      ensures From(fs, place, [name] + rest, left) == From(fs, [], below + rest, left - 1)
    {
      assert (fs.root + below)[|fs.root|..] == below;
    }
  }

  /** What else a step does: `..` goes to the directory above and stays at the root, and a name
      that is there goes down into it. */
  lemma OtherSteps(fs: RootedFs, place: Names, name: string, rest: Names, left: nat)
    ensures From(fs, place + [name], [".."] + rest, left) == From(fs, place, rest, left)
    ensures From(fs, [], [".."] + rest, left) == From(fs, [], rest, left)
    ensures name != ".." && fs.lstat(fs.root + (place + [name])) == Real ==>
              From(fs, place, [name] + rest, left) == From(fs, place + [name], rest, left)
  {
    assert ([".."] + rest)[1..] == rest && ([name] + rest)[1..] == rest;
    assert (place + [name])[..|place|] == place;
  }

  /** A segment that is a component, or nothing. */
  function Part(segment: string): Names { if segment == "" || segment == "." then [] else [segment] }

  lemma PartsStep(segments: seq<string>)
    requires segments != []
    ensures Parts(segments) == Part(segments[0]) + Parts(segments[1..])
  {
  }

  lemma Grouped(a: Names, b: Names, c: Names)
    ensures a + (b + c) == a + b + c
  {
  }

  lemma {:induction false} PartsConcat(a: seq<string>, b: seq<string>)
    ensures Parts(a + b) == Parts(a) + Parts(b)
    decreases |a|
  {
    if a == [] {
      assert a + b == b;
    } else {
      hide Parts, Part;
      PartsConcat(a[1..], b);
      PartsStep(a);
      PartsStep(a + b);
      assert (a + b)[1..] == a[1..] + b;
      Grouped(Part(a[0]), Parts(a[1..]), Parts(b));
    }
  }

  /** The components of a target are what lies between its slashes, save for what is empty and `.`. */
  lemma ComponentsAre(a: string, b: string)
    ensures Components(a + "/" + b) == Components(a) + Components(b)
    ensures '/' !in a ==> Components(a) == if a == "" || a == "." then [] else [a]
  {
    SplitBoth(a, b);
    PartsConcat(Split(a), Split(b));
    if '/' !in a {
      SplitAt(a, "");
      assert Parts([a]) == (if a == "" || a == "." then [] else [a]) + Parts([]);
    }
  }

  // ---------------------------------------------------------------- how resolving fails

  lemma {:induction false} LostIsMissing(guest: Guest, leads: string -> Destination, place: Names, steps: Names, left: nat)
    requires LinkFree(guest, place) && Clean(place) && Steps(steps) && CleanTargets(leads)
    ensures var r := Walk(guest, leads, place, steps, left);
            && (r.Lost? ==> r.place != [] && Clean(r.place) && guest(r.place) == Missing(r.reason) && LinkFree(guest, Up(r.place)))
    decreases left, |steps|, 1
  {
    if steps == [] {
    } else {
      hide Walk;
      var first, rest := [steps[0]], steps[1..];
      assert steps == first + rest;
      WalkConcat(guest, leads, place, first, rest, left);
      LostAtOne(guest, leads, place, steps[0], left);
      WalkIsLinkFree(guest, leads, place, first, left);
      WalkIsClean(guest, leads, place, first, left);
      var r := Walk(guest, leads, place, first, left);
      if r.At? { LostIsMissing(guest, leads, r.place, rest, r.left); }
    }
  }

  lemma {:induction false} LostAtOne(guest: Guest, leads: string -> Destination, place: Names, step: string, left: nat)
    requires LinkFree(guest, place) && Clean(place) && Steps([step]) && CleanTargets(leads)
    ensures var r := Walk(guest, leads, place, [step], left);
            && (r.Lost? ==> r.place != [] && Clean(r.place) && guest(r.place) == Missing(r.reason) && LinkFree(guest, Up(r.place)))
    decreases left, 1, 0
  {
    assert step == ".." || IsName(step) by { assert [step][0] == step; }
    if step != ".." {
      assert (place + [step])[..|place|] == place;
      if guest(place + [step]).Link? && left > 0 {
        var to := leads(guest(place + [step]).target);
        LinkFreeRoot(guest);
        LostIsMissing(guest, leads, if to.fromRoot then [] else place, to.steps, left - 1);
      }
    }
  }

  lemma LinkFreeRoot(guest: Guest)
    ensures LinkFree(guest, [])
  {
  }

  /** A path that resolves to nothing is reported at the first thing that is missing, as a guest
      path: it is not there, and everything above it is, without links. */
  lemma MissingIsNamed(fs: RootedFs, guest: string)
    requires fs.Resolved(guest).Err? && fs.Resolved(guest).error.NotThere?
    ensures exists place: Names ::
              && place != [] && Clean(place) && fs.Resolved(guest).error.guest == Absolute(place)
              && fs.lstat(fs.root + place) == Missing(fs.Resolved(guest).error.reason)
              && forall k :: 1 <= k < |place| ==> fs.lstat(fs.root + place[..k]).Real?
  {
    hide Walk, GuestPath.Names, Absolute;
    NamesAreClean(guest);
    TargetsAreClean(fs);
    var names := GuestPath.Names(guest);
    assert forall i :: 0 <= i < |names| ==> IsName(names[i]);
    LinkFreeRoot(fs.GuestTree());
    LostIsMissing(fs.GuestTree(), fs.LinkTargets(), [], names, MAX_LINK_HOPS);
    var place := Walk(fs.GuestTree(), fs.LinkTargets(), [], names, MAX_LINK_HOPS).place;
    NamesOfAbsolute(place);
    forall k | 1 <= k < |place| ensures fs.lstat(fs.root + place[..k]).Real? {
      assert Up(place)[..k] == place[..k];
      assert fs.GuestTree()(place[..k]).Real?;
    }
  }

  /** A link that cannot be read, met on a path that is otherwise there, is reported with its reason. */
  lemma UnreadableIsReported(fs: RootedFs, place: Names, name: string, reason: string)
    requires Clean(place) && IsName(name)
    requires forall k :: 1 <= k <= |place| ==> fs.lstat(fs.root + place[..k]).Real?
    requires fs.lstat(fs.root + (place + [name])) == UnreadableLink(reason)
    ensures fs.Resolved(Absolute(place + [name])) == Err(NotRead(reason))
  {
    hide GuestPath.Names, Absolute;
    var steps := place + [name];
    assert Clean(steps) by {
      forall i | 0 <= i < |steps| ensures IsName(steps[i]) { if i < |place| { assert steps[i] == place[i]; } }
    }
    NamesOfAbsolute(steps);
    assert [] + place == place;
    WalkStraight(fs.GuestTree(), fs.LinkTargets(), [], place, MAX_LINK_HOPS);
    WalkConcat(fs.GuestTree(), fs.LinkTargets(), [], place, [name], MAX_LINK_HOPS);
    WalkStep(fs.GuestTree(), fs.LinkTargets(), place, name, [], MAX_LINK_HOPS);
    assert [name] + [] == [name];
  }

  /** Link `n` of a chain names link `n + 1`, and the last one something real. */
  predicate Chain(fs: RootedFs, names: seq<string>) {
    && names != [] && Clean(names)
    && (forall i :: 0 <= i < |names| - 1 ==> fs.lstat(fs.root + [names[i]]) == Link(names[i + 1]))
    && fs.lstat(fs.root + [names[|names| - 1]]) == Real
  }

  lemma ChainTail(fs: RootedFs, names: seq<string>)
    requires Chain(fs, names)
    ensures names != [] && IsName(names[0]) && names[0] != "" && names[0][0] != '/' && Components(names[0]) == [names[0]]
    ensures |names| > 1 ==> Chain(fs, names[1..]) && fs.lstat(fs.root + [names[0]]) == Link(names[1])
    ensures |names| == 1 ==> fs.lstat(fs.root + [names[0]]) == Real
  {
    assert IsName(names[0]);
    ComponentsAre(names[0], "");
    if |names| > 1 {
      var rest := names[1..];
      forall i | 0 <= i < |rest| ensures IsName(rest[i]) { assert IsName(names[i + 1]); }
    }
  }

  lemma {:induction false} ChainWalks(fs: RootedFs, names: seq<string>, left: nat)
    requires Chain(fs, names)
    ensures From(fs, [], [names[0]], left)
         == if |names| - 1 <= left then At([names[|names| - 1]], left - (|names| - 1)) else Exhausted
    decreases |names|
  {
    hide Walk, Chain, Components, IsName;
    ChainTail(fs, names);
    assert [] + [names[0]] == [names[0]] && [names[0]] + [] == [names[0]];
    WalkStep(fs.GuestTree(), fs.LinkTargets(), [], names[0], [], left);
    if |names| == 1 {
      OneName(names[0]);
      WalkNothing(fs.GuestTree(), fs.LinkTargets(), [names[0]], left, []);
    } else if left == 0 {
      OneName(names[0]);
    } else {
      var rest := names[1..];
      OneName(names[0]);
      ChainTail(fs, rest);
      ChainWalks(fs, rest, left - 1);
      WhereLinksLead(fs, [], names[0], names[1], [], left);
      assert [names[1]] + [] == [names[1]];
    }
  }

  lemma OneName(name: string)
    requires IsName(name)
    ensures name != ".." && name != ""
  {
  }

  /** A chain of links resolves exactly when it has at most forty. */
  lemma FortyLinks(fs: RootedFs, names: seq<string>)
    requires Chain(fs, names)
    ensures fs.Resolved(Absolute([names[0]]))
         == if |names| - 1 <= 40 then Ok(fs.root + [names[|names| - 1]]) else Err(TooManyLinks(Absolute([names[0]])))
  {
    hide Walk, GuestPath.Names, Absolute;
    assert IsName(names[0]);
    NamesOfAbsolute([names[0]]);
    ChainWalks(fs, names, MAX_LINK_HOPS);
  }
}
