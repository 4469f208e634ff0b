/** The cascade-id analysis of the explorer in app.py: the component
    scanner `parse_cascade_id`, the common/unique position analysis and
    the grouping of messages by split and compare keys. Each is a method
    with the loops of the source, proved against a function that states
    the result directly. */
module Explorer {
  import opened Base
  import opened Text
  import opened Values
  import opened Lineage

  // ---------------------------------------------------------------- parse_cascade_id

  /** The id with every bracketed merge group `[...]` (up to the first `]`
      after its `[`) removed together with one `/` right after it; a `[`
      with no later `]` is the `ValueError` of `str.index`. */
  function Unbracket(s: string): (r: Result<string>)
    ensures r.Err? ==> r == Err(ValueError)
    decreases |s|
  {
    if s == [] then Ok("")
    else if s[0] == '[' then
      match IndexFrom(s, ']', 0)
      case None => Err(ValueError)
      case Some(k) =>
        var rest := s[k + 1..];
        Unbracket(if rest != [] && rest[0] == '/' then rest[1..] else rest)
    else Prepend(s[0], Unbracket(s[1..]))
  }

  function Prepend(c: char, r: Result<string>): Result<string> {
    match r
    case Ok(t) => Ok([c] + t)
    case Err(e) => Err(e)
  }

  /** The parts that are not empty, in order. */
  function NonEmpty(parts: seq<string>): (r: seq<string>)
    ensures forall k :: 0 <= k < |r| ==> r[k] != ""
  {
    if parts == [] then []
    else if parts[0] == "" then NonEmpty(parts[1..])
    else [parts[0]] + NonEmpty(parts[1..])
  }

  /** What `parse_cascade_id` returns: the merge groups removed, then the
      non-empty `/`-separated parts. */
  function Components(id: string): (r: Result<seq<string>>)
    ensures r.Err? ==> r == Err(ValueError)
  {
    match Unbracket(id)
    case Err(e) => Err(e)
    case Ok(t) => Ok(NonEmpty(Split(t, '/')))
  }

  /** The scan state `components`, `current` and the rest of the id, seen
      as the components it ends with. */
  function Resume(components: seq<string>, current: string, rest: Result<string>): Result<seq<string>> {
    match rest
    case Err(e) => Err(e)
    case Ok(t) => Ok(components + NonEmpty(Split(current + t, '/')))
  }

  /** `parse_cascade_id(cascade_id)`: a scan over the characters that skips
      merge groups (and one `/` after them), ends a component at each `/`
      and keeps a non-empty trailing component. */
  method ParseCascadeId(id: string) returns (r: Result<seq<string>>)
    ensures r == Components(id)
  {
    var components: seq<string> := [];
    var current := "";
    var i := 0;
    var failed := false;
    assert id[0..] == id;
    ResumeStart(Unbracket(id));
    while i < |id| && !failed
      invariant 0 <= i <= |id|
      invariant '/' !in current
      invariant !failed ==> Components(id) == Resume(components, current, Unbracket(id[i..]))
      invariant failed ==> Components(id) == Err(ValueError)
      decreases !failed, |id| - i
    {
      components, current, i, failed := ScanOne(id, Components(id), components, current, i);
    }
    if failed {
      r := Err(ValueError);
    } else {
      assert id[i..] == [];
      TrailingKept(components, current);
      if current != "" {
        components := components + [current];
      }
      r := Ok(components);
    }
  }

  /** One pass of the loop body of `parse_cascade_id` at index `i`: a
      merge group is skipped (with one `/` after it), a `/` ends the
      current component, any other character extends it. */
  method ScanOne(id: string, ghost target: Result<seq<string>>, components: seq<string>, current: string, i: nat)
    returns (components': seq<string>, current': string, i': nat, failed: bool)
    requires i < |id| && '/' !in current
    requires target == Resume(components, current, Unbracket(id[i..]))
    ensures '/' !in current' && i' <= |id|
    ensures !failed ==> i < i' <= |id| && target == Resume(components', current', Unbracket(id[i'..]))
    ensures failed ==> target == Err(ValueError)
  {
    if id[i] == '[' {
      components', current' := components, current;
      i', failed := ScanGroup(id, i);
    } else {
      components', current' := ScanChar(id, target, components, current, i);
      i', failed := i + 1, false;
    }
  }

  /** A `[` at index `i`: the group is skipped up to its `]`, and one `/`
      right after it; without a later `]` the scan fails. */
  method ScanGroup(id: string, i: nat) returns (i': nat, failed: bool)
    requires i < |id| && id[i] == '['
    ensures i' <= |id|
    ensures !failed ==> i < i' && Unbracket(id[i..]) == Unbracket(id[i'..])
    ensures failed ==> Unbracket(id[i..]) == Err(ValueError)
  {
    var close := IndexFrom(id, ']', i);
    if close.None? {
      UnbracketUnclosed(id, i);
      i', failed := i, true;
    } else {
      UnbracketSkip(id, i, close.value);
      i', failed := close.value + 1, false;
      if i' < |id| && id[i'] == '/' {
        i' := i' + 1;
      }
      assert i' == SkipEnd(id, close.value);
    }
  }

  /** Any other character at index `i`: a `/` ends the current component,
      keeping it when it is not empty; anything else extends it. */
  method ScanChar(id: string, ghost target: Result<seq<string>>, components: seq<string>, current: string, i: nat)
    returns (components': seq<string>, current': string)
    requires i < |id| && id[i] != '[' && '/' !in current
    requires target == Resume(components, current, Unbracket(id[i..]))
    ensures '/' !in current'
    ensures target == Resume(components', current', Unbracket(id[i + 1..]))
  {
    UnbracketChar(id, i);
    if id[i] == '/' {
      SlashEnds(components, current, Unbracket(id[i + 1..]));
      components', current' := components, current;
      if current != "" {
        components', current' := components + [current], "";
      }
    } else {
      CharExtends(components, current, id[i], Unbracket(id[i + 1..]));
      components', current' := components, current + [id[i]];
    }
  }

  lemma ResumeStart(rest: Result<string>)
    ensures Resume([], "", rest) == match rest case Err(e) => Err(e) case Ok(t) => Ok(NonEmpty(Split(t, '/')))
  {
    if rest.Ok? {
      var t := rest.value;
      assert "" + t == t;
      var parts := NonEmpty(Split(t, '/'));
      assert [] + parts == parts;
    }
  }

  lemma NonEmptySingle(c: string)
    ensures NonEmpty([c]) == if c == "" then [] else [c]
  {
    assert [c][1..] == [];
  }

  lemma UnbracketChar(s: string, i: nat)
    requires i < |s| && s[i] != '['
    ensures Unbracket(s[i..]) == Prepend(s[i], Unbracket(s[i + 1..]))
  {
    assert s[i..][1..] == s[i + 1..];
  }

  lemma IndexFromShift(s: string, c: char, i: nat, k: nat)
    requires i <= k && IndexFrom(s, c, i) == Some(k)
    ensures IndexFrom(s[i..], c, 0) == Some(k - i)
  {
    IndexFromAt(s[i..], c, 0, k - i);
  }

  /** Where the scan resumes after a merge group closed at `k`: past the
      `]` and one `/` right after it. */
  function SkipEnd(s: string, k: nat): nat {
    if k + 1 < |s| && s[k + 1] == '/' then k + 2 else k + 1
  }

  lemma UnbracketSkip(s: string, i: nat, k: nat)
    requires i < |s| && s[i] == '[' && IndexFrom(s, ']', i) == Some(k)
    ensures i < SkipEnd(s, k) <= |s|
    ensures Unbracket(s[i..]) == Unbracket(s[SkipEnd(s, k)..])
  {
    IndexFromShift(s, ']', i, k);
    var t := s[i..];
    var e := SkipEnd(s, k);
    assert t[k - i] == ']';
    assert e - i == if k - i + 1 < |t| && t[k - i + 1] == '/' then k - i + 2 else k - i + 1;
    UnbracketOpen(t, k - i);
    assert t[e - i..] == s[e..];
  }

  /** A merge group at the head of the text is dropped with one `/` after it. */
  lemma UnbracketOpen(t: string, k: nat)
    requires t != [] && t[0] == '[' && IndexFrom(t, ']', 0) == Some(k)
    ensures k < |t|
    ensures Unbracket(t) == Unbracket(t[if k + 1 < |t| && t[k + 1] == '/' then k + 2 else k + 1..])
  {
    var rest := t[k + 1..];
    if rest != [] && rest[0] == '/' {
      assert rest[1..] == t[k + 2..];
    }
  }

  lemma UnbracketUnclosed(s: string, i: nat)
    requires i < |s| && s[i] == '[' && IndexFrom(s, ']', i).None?
    ensures Unbracket(s[i..]) == Err(ValueError)
  {
    var t := s[i..];
    assert forall k :: 0 <= k < |t| ==> t[k] == s[i + k];
    assert IndexFrom(t, ']', 0).None?;
  }

  lemma {:induction false} NonEmptyAppend(a: seq<string>, b: seq<string>)
    ensures NonEmpty(a + b) == NonEmpty(a) + NonEmpty(b)
  {
    if a == [] {
      assert a + b == b;
    } else {
      assert (a + b)[0] == a[0];
      assert (a + b)[1..] == a[1..] + b;
      NonEmptyAppend(a[1..], b);
      if a[0] != "" {
        assert NonEmpty(a + b) == [a[0]] + NonEmpty(a[1..] + b);
        assert [a[0]] + (NonEmpty(a[1..]) + NonEmpty(b)) == [a[0]] + NonEmpty(a[1..]) + NonEmpty(b);
      } else {
        assert NonEmpty(a + b) == NonEmpty(a[1..] + b);
      }
    }
  }

  /** A `/` ends the current component, which is kept unless empty. */
  lemma SlashEnds(components: seq<string>, current: string, rest: Result<string>)
    requires '/' !in current
    ensures Resume(components, current, Prepend('/', rest))
         == Resume(if current != "" then components + [current] else components, "", rest)
  {
    if rest.Ok? {
      var t := rest.value;
      var tail := NonEmpty(Split(t, '/'));
      assert current + (['/'] + t) == current + ['/'] + t;
      SplitConcat(current, t, '/');
      SplitNoSeparator(current, '/');
      NonEmptyAppend([current], Split(t, '/'));
      NonEmptySingle(current);
      assert NonEmpty(Split(current + (['/'] + t), '/')) == NonEmpty([current]) + tail;
      assert "" + t == t;
      if current == "" {
        assert NonEmpty([current]) + tail == tail;
      } else {
        assert components + ([current] + tail) == components + [current] + tail;
      }
    }
  }

  /** Any other character extends the current component. */
  lemma CharExtends(components: seq<string>, current: string, c: char, rest: Result<string>)
    ensures Resume(components, current, Prepend(c, rest)) == Resume(components, current + [c], rest)
  {
    if rest.Ok? {
      assert current + ([c] + rest.value) == current + [c] + rest.value;
    }
  }

  /** At the end of the id, a non-empty current component is kept. */
  lemma TrailingKept(components: seq<string>, current: string)
    requires '/' !in current
    ensures Resume(components, current, Ok(""))
         == Ok(if current != "" then components + [current] else components)
  {
    assert current + "" == current;
    SplitNoSeparator(current, '/');
    NonEmptySingle(current);
    assert components + [] == components;
  }

  /** No `[` survives the removal of merge groups. */
  lemma {:induction false} UnbracketAvoids(s: string)
    requires Unbracket(s).Ok?
    ensures '[' !in Unbracket(s).value
    decreases |s|
  {
    if s != [] {
      if s[0] == '[' {
        var k := IndexFrom(s, ']', 0).value;
        var rest := s[k + 1..];
        UnbracketAvoids(if rest != [] && rest[0] == '/' then rest[1..] else rest);
      } else {
        UnbracketAvoids(s[1..]);
      }
    }
  }

  lemma {:induction false} NonEmptyKeeps(parts: seq<string>, c: char)
    requires forall k :: 0 <= k < |parts| ==> c !in parts[k]
    ensures forall k :: 0 <= k < |NonEmpty(parts)| ==> c !in NonEmpty(parts)[k]
  {
    if parts != [] {
      NonEmptyKeeps(parts[1..], c);
    }
  }

  lemma {:induction false} SplitPartsOf(s: string, c: char, d: char)
    requires d !in s
    ensures forall k :: 0 <= k < |Split(s, c)| ==> d !in Split(s, c)[k]
  {
    if s != [] {
      SplitPartsOf(s[1..], c, d);
    }
  }

  /** Every component is non-empty and holds neither `/` nor `[`. */
  lemma ComponentsWellFormed(id: string)
    requires Components(id).Ok?
    ensures forall k :: 0 <= k < |Components(id).value| ==>
      var c := Components(id).value[k]; c != "" && '/' !in c && '[' !in c
  {
    var t := Unbracket(id).value;
    UnbracketAvoids(id);
    SplitPartsAvoid(t, '/');
    SplitPartsOf(t, '/', '[');
    NonEmptyKeeps(Split(t, '/'), '/');
    NonEmptyKeeps(Split(t, '/'), '[');
  }

  /** Some `[` has no `]` after it. */
  predicate Unclosed(s: string) {
    exists j :: 0 <= j < |s| && s[j] == '[' && forall k :: j < k < |s| ==> s[k] != ']'
  }

  lemma UnclosedTail(s: string, d: nat)
    requires d <= |s|
    requires forall j :: 0 <= j < d && s[j] == '[' ==> exists k :: j < k < |s| && s[k] == ']'
    ensures Unclosed(s) <==> Unclosed(s[d..])
  {
    if Unclosed(s) {
      UnclosedDrop(s, d);
    }
    if Unclosed(s[d..]) {
      UnclosedLift(s, d);
    }
  }

  lemma UnclosedDrop(s: string, d: nat)
    requires d <= |s| && Unclosed(s)
    requires forall j :: 0 <= j < d && s[j] == '[' ==> exists k :: j < k < |s| && s[k] == ']'
    ensures Unclosed(s[d..])
  {
    var j :| 0 <= j < |s| && s[j] == '[' && forall k :: j < k < |s| ==> s[k] != ']';
    assert j >= d;
    var t := s[d..];
    assert t[j - d] == '[';
    forall k | j - d < k < |t| ensures t[k] != ']' {
      assert t[k] == s[k + d];
    }
  }

  lemma UnclosedLift(s: string, d: nat)
    requires d <= |s| && Unclosed(s[d..])
    ensures Unclosed(s)
  {
    var t := s[d..];
    var j :| 0 <= j < |t| && t[j] == '[' && forall k :: j < k < |t| ==> t[k] != ']';
    assert s[j + d] == '[';
    forall k | j + d < k < |s| ensures s[k] != ']' {
      assert s[k] == t[k - d];
    }
  }

  /** `parse_cascade_id` raises exactly when some `[` has no later `]`. */
  lemma {:induction false} UnbracketFailsIff(s: string)
    ensures Unbracket(s).Err? <==> Unclosed(s)
    ensures Unbracket(s).Err? ==> Unbracket(s).error == ValueError
    decreases |s|
  {
    if s == [] {
    } else if s[0] == '[' {
      match IndexFrom(s, ']', 0)
      case None =>
        assert s[0] == '[' && forall k :: 0 < k < |s| ==> s[k] != ']';
      case Some(k) =>
        var rest := s[k + 1..];
        var d := if rest != [] && rest[0] == '/' then k + 2 else k + 1;
        assert s[d..] == if rest != [] && rest[0] == '/' then rest[1..] else rest;
        UnbracketFailsIff(s[d..]);
        UnclosedTail(s, d);
    } else {
      UnbracketFailsIff(s[1..]);
      UnclosedTail(s, 1);
    }
  }

  lemma ComponentsFailIff(id: string)
    ensures Components(id).Err? <==> Unclosed(id)
    ensures Components(id).Err? ==> Components(id) == Err(ValueError)
  {
    UnbracketFailsIff(id);
  }

  lemma {:induction false} UnbracketPlain(s: string)
    requires '[' !in s
    ensures Unbracket(s) == Ok(s)
  {
    if s != [] {
      UnbracketPlain(s[1..]);
      assert s == [s[0]] + s[1..];
    }
  }

  /** Round trip: components joined with `/` parse back to themselves. */
  lemma ComponentsOfJoin(parts: seq<string>)
    requires forall k :: 0 <= k < |parts| ==> parts[k] != "" && '/' !in parts[k] && '[' !in parts[k]
    ensures Components(Join(parts, '/')) == Ok(parts)
  {
    JoinAvoids(parts, '/', '[');
    UnbracketPlain(Join(parts, '/'));
    if parts == [] {
      assert Split("", '/') == [""];
    } else {
      SplitJoin(parts, '/');
      NonEmptyAll(parts);
    }
  }

  lemma {:induction false} NonEmptyAll(parts: seq<string>)
    requires forall k :: 0 <= k < |parts| ==> parts[k] != ""
    ensures NonEmpty(parts) == parts
  {
    if parts != [] {
      NonEmptyAll(parts[1..]);
    }
  }

  /** Removing merge groups works piecewise when the first piece does not
      end with the `]` of a group. */
  lemma {:induction false} UnbracketConcat(a: string, b: string)
    requires Unbracket(a).Ok? && (a == [] || a[|a| - 1] != ']')
    ensures Unbracket(a + b) == Prepends(Unbracket(a).value, Unbracket(b))
    decreases |a|
  {
    if a == [] {
      assert a + b == b;
      if Unbracket(b).Ok? {
        assert "" + Unbracket(b).value == Unbracket(b).value;
      }
    } else if a[0] == '[' {
      var a' := GroupConcat(a, b);
      UnbracketConcat(a', b);
    } else {
      assert (a + b)[1..] == a[1..] + b;
      UnbracketConcat(a[1..], b);
      PrependsCons(a[0], Unbracket(a[1..]).value, Unbracket(b));
    }
  }

  /** A closed group at the front of `a` is skipped alike in `a` and in
      `a + b`. */
  lemma GroupConcat(a: string, b: string) returns (a': string)
    requires a != [] && a[0] == '[' && Unbracket(a).Ok? && a[|a| - 1] != ']'
    ensures |a'| < |a| && Unbracket(a') == Unbracket(a) && (a' == [] || a'[|a'| - 1] != ']')
    ensures Unbracket(a + b) == Unbracket(a' + b)
  {
    var k := IndexFrom(a, ']', 0).value;
    IndexFromAt(a + b, ']', 0, k);
    var rest := a[k + 1..];
    assert rest != [];
    a' := if rest[0] == '/' then rest[1..] else rest;
    assert (a + b)[k + 1..] == rest + b;
    assert (rest + b)[0] == rest[0];
    if rest[0] == '/' {
      assert (rest + b)[1..] == a' + b;
    }
  }


  function Prepends(t: string, r: Result<string>): Result<string> {
    match r
    case Ok(u) => Ok(t + u)
    case Err(e) => Err(e)
  }

  lemma PrependsCons(c: char, t: string, r: Result<string>)
    ensures Prepend(c, Prepends(t, r)) == Prepends([c] + t, r)
  {
    if r.Ok? {
      assert [c] + (t + r.value) == [c] + t + r.value;
    }
  }

  /** A derived id (no parameters) parses as its parent's components
      followed by the step name. */
  lemma ComponentsOfDerived(parent: string, step: string)
    requires Components(parent).Ok? && (parent == [] || parent[|parent| - 1] != ']')
    requires step != "" && '/' !in step && '[' !in step
    ensures Components(DeriveId(parent, step, [])) == Ok(Components(parent).value + [step])
  {
    assert ParamSuffix([]) == "";
    assert step + "" == step;
    if parent == "" {
      UnbracketPlain(step);
      SplitNoSeparator(step, '/');
      NonEmptySingle(step);
      assert DeriveId(parent, step, []) == step;
      assert Split("", '/') == [""];
      NonEmptySingle("");
      assert Components(parent).value == [];
      assert Components(step) == Ok([step]);
      assert Components(parent).value + [step] == [step];
    } else {
      assert DeriveId(parent, step, []) == parent + ("/" + step);
      ComponentsOfExtended(parent, step);
    }
  }

  lemma ComponentsOfExtended(parent: string, step: string)
    requires Components(parent).Ok? && parent != [] && parent[|parent| - 1] != ']'
    requires step != "" && '/' !in step && '[' !in step
    ensures Components(parent + ("/" + step)) == Ok(Components(parent).value + [step])
  {
    SplitNoSeparator(step, '/');
    NonEmptySingle(step);
    var t := Unbracket(parent).value;
    UnbracketExtended(parent, step);
    SplitConcat(t, step, '/');
    NonEmptyAppend(Split(t, '/'), [step]);
  }

  lemma UnbracketExtended(parent: string, step: string)
    requires Unbracket(parent).Ok? && parent != [] && parent[|parent| - 1] != ']'
    requires '[' !in step
    ensures Unbracket(parent + ("/" + step)) == Ok(Unbracket(parent).value + ['/'] + step)
  {
    UnbracketPlain("/" + step);
    UnbracketConcat(parent, "/" + step);
    assert Unbracket(parent).value + ("/" + step) == Unbracket(parent).value + ['/'] + step;
  }

  // ---------------------------------------------------------------- analyze_cascade_paths

  /** The components of every message's id, in order, or the first exception. */
  function ParseAll(messages: seq<Message>): (r: Result<seq<seq<string>>>)
    ensures r.Ok? ==> |r.value| == |messages|
  {
    if messages == [] then Ok([])
    else
      match ParseAll(messages[..|messages| - 1])
      case Err(e) => Err(e)
      case Ok(paths) =>
        match Components(messages[|messages| - 1].cascadeId)
        case Err(e) => Err(e)
        case Ok(p) => Ok(paths + [p])
  }

  lemma {:induction false} ParseAllEach(messages: seq<Message>)
    requires ParseAll(messages).Ok?
    ensures forall k :: 0 <= k < |messages| ==> Components(messages[k].cascadeId) == Ok(ParseAll(messages).value[k])
  {
    if messages != [] {
      var init := messages[..|messages| - 1];
      ParseAllEach(init);
      assert forall k :: 0 <= k < |init| ==> messages[k] == init[k];
    }
  }

  lemma {:induction false} ParseAllErrorStays(messages: seq<Message>, j: nat)
    requires j <= |messages| && ParseAll(messages[..j]).Err?
    ensures ParseAll(messages) == ParseAll(messages[..j])
    decreases |messages| - j
  {
    if j < |messages| {
      PrefixSnoc(messages, j);
      assert messages[..j + 1][..j] == messages[..j];
      ParseAllErrorStays(messages, j + 1);
    } else {
      assert messages[..j] == messages;
    }
  }

  /** The values seen at position `i` among the paths long enough to have
      one (`position_values[i]`). */
  function ValuesAt(paths: seq<seq<string>>, i: nat): set<string> {
    if paths == [] then {}
    else
      var last := paths[|paths| - 1];
      ValuesAt(paths[..|paths| - 1], i) + (if i < |last| then {last[i]} else {})
  }

  lemma {:induction false} ValuesAtIff(paths: seq<seq<string>>, i: nat, v: string)
    ensures v in ValuesAt(paths, i) <==> exists k :: 0 <= k < |paths| && i < |paths[k]| && paths[k][i] == v
  {
    if paths != [] {
      var init := paths[..|paths| - 1];
      ValuesAtIff(init, i, v);
      assert forall k :: 0 <= k < |init| ==> paths[k] == init[k];
    }
  }

  /** The longest path length (`max(len(path) ...)`). */
  function MaxLen(paths: seq<seq<string>>): (r: nat)
    ensures forall k :: 0 <= k < |paths| ==> |paths[k]| <= r
    ensures paths != [] ==> exists k :: 0 <= k < |paths| && |paths[k]| == r
  {
    if paths == [] then 0
    else
      var m := MaxLen(paths[1..]);
      assert forall k :: 1 <= k < |paths| ==> paths[k] == paths[1..][k - 1];
      if |paths[0]| >= m then |paths[0]| else m
  }

  /** The value at position `i` of the first path that has one. */
  function FirstAt(paths: seq<seq<string>>, i: nat): string
    requires exists k :: 0 <= k < |paths| && i < |paths[k]|
  {
    if i < |paths[0]| then paths[0][i]
    else
      var k :| 0 <= k < |paths| && i < |paths[k]|;
      assert paths[1..][k - 1] == paths[k];
      FirstAt(paths[1..], i)
  }

  lemma {:induction false} FirstAtIn(paths: seq<seq<string>>, i: nat)
    requires exists k :: 0 <= k < |paths| && i < |paths[k]|
    ensures FirstAt(paths, i) in ValuesAt(paths, i)
  {
    if i < |paths[0]| {
      ValuesAtIff(paths, i, paths[0][i]);
    } else {
      var k :| 0 <= k < |paths| && i < |paths[k]|;
      assert paths[1..][k - 1] == paths[k];
      FirstAtIn(paths[1..], i);
      var j :| 0 <= j < |paths[1..]| && i < |paths[1..][j]| && paths[1..][j][i] == FirstAt(paths[1..], i) by {
        ValuesAtIff(paths[1..], i, FirstAt(paths[1..], i));
      }
      assert paths[j + 1] == paths[1..][j];
      ValuesAtIff(paths, i, FirstAt(paths, i));
    }
  }

  /** Positions `0 .. n - 1` sorted into common values and unique indices. */
  function Classify(paths: seq<seq<string>>, n: nat): (seq<string>, seq<nat>)
    requires n <= MaxLen(paths)
  {
    if n == 0 then ([], [])
    else
      var (common, unique) := Classify(paths, n - 1);
      if |ValuesAt(paths, n - 1)| == 1 then
        assert exists k :: 0 <= k < |paths| && n - 1 < |paths[k]|;
        (common + [FirstAt(paths, n - 1)], unique)
      else (common, unique + [n - 1])
  }

  /** What `analyze_cascade_paths` returns. */
  datatype Axes = Axes(common: seq<string>, splits: seq<nat>, compares: seq<nat>)

  /** The default split/compare assignment: every unique position but the
      last splits, the last one compares, and a single one splits. */
  function DefaultAxes(common: seq<string>, unique: seq<nat>): (r: Axes)
    ensures r.common == common && r.splits + r.compares == unique
    ensures |unique| >= 2 ==> r.compares == [unique[|unique| - 1]]
    ensures |unique| < 2 ==> r.compares == []
  {
    if |unique| == 0 then Axes(common, [], [])
    else if |unique| == 1 then Axes(common, [unique[0]], [])
    else Axes(common, unique[..|unique| - 1], [unique[|unique| - 1]])
  }

  function AnalyzeSpec(messages: seq<Message>): (r: Result<Axes>)
    ensures messages == [] ==> r == Err(ValueError)
    ensures r.Ok? ==> |r.value.compares| <= 1
  {
    match ParseAll(messages)
    case Err(e) => Err(e)
    case Ok(paths) =>
      if paths == [] then Err(ValueError)
      else
        var (common, unique) := Classify(paths, MaxLen(paths));
        Ok(DefaultAxes(common, unique))
  }

  /** A set of one element holding `v` is `{v}`. */
  lemma SingletonOf(vs: set<string>, v: string)
    requires |vs| == 1 && v in vs
    ensures vs == {v}
  {
    var rest := vs - {v};
    assert |rest| == 0;
    assert rest == {};
  }

  /** Classifying one more position extends one of the two lists. */
  lemma ClassifyStep(paths: seq<seq<string>>, n: nat)
    requires 0 < n <= MaxLen(paths)
    ensures |ValuesAt(paths, n - 1)| == 1 ==>
      Classify(paths, n).1 == Classify(paths, n - 1).1 && |Classify(paths, n).0| == |Classify(paths, n - 1).0| + 1
    ensures |ValuesAt(paths, n - 1)| != 1 ==>
      Classify(paths, n).1 == Classify(paths, n - 1).1 + [n - 1] && Classify(paths, n).0 == Classify(paths, n - 1).0
  {
  }

  /** Every position is classified once. */
  lemma {:induction false} ClassifyCount(paths: seq<seq<string>>, n: nat)
    requires n <= MaxLen(paths)
    ensures |Classify(paths, n).0| + |Classify(paths, n).1| == n
  {
    if n > 0 {
      ClassifyCount(paths, n - 1);
      ClassifyStep(paths, n);
    }
  }

  /** A unique position does not hold one value only; the unique positions
      come in increasing order. */
  lemma {:induction false} ClassifyUnique(paths: seq<seq<string>>, n: nat)
    requires n <= MaxLen(paths)
    ensures forall j :: 0 <= j < |Classify(paths, n).1| ==> Classify(paths, n).1[j] < n && |ValuesAt(paths, Classify(paths, n).1[j])| != 1
    ensures forall j, j' :: 0 <= j < j' < |Classify(paths, n).1| ==> Classify(paths, n).1[j] < Classify(paths, n).1[j']
  {
    if n > 0 {
      ClassifyUnique(paths, n - 1);
      ClassifyStep(paths, n);
    }
  }

  /** Every position that does not hold one value only is unique. */
  lemma {:induction false} ClassifyComplete(paths: seq<seq<string>>, n: nat)
    requires n <= MaxLen(paths)
    ensures forall i :: 0 <= i < n && |ValuesAt(paths, i)| != 1 ==> i in Classify(paths, n).1
  {
    if n > 0 {
      ClassifyComplete(paths, n - 1);
      ClassifyStep(paths, n);
    }
  }

  /** The positions below `n` that hold one value only, in increasing
      order. */
  function SinglePositions(paths: seq<seq<string>>, n: nat): (r: seq<nat>)
    ensures forall j :: 0 <= j < |r| ==> r[j] < n && |ValuesAt(paths, r[j])| == 1
    ensures forall j, j' :: 0 <= j < j' < |r| ==> r[j] < r[j']
    ensures forall i :: 0 <= i < n && |ValuesAt(paths, i)| == 1 ==> i in r
  {
    if n == 0 then []
    else SinglePositions(paths, n - 1) + (if |ValuesAt(paths, n - 1)| == 1 then [n - 1] else [])
  }

  /** The j-th common value is the one value seen at the j-th position that
      holds one value only, and there is one common value per such
      position. */
  lemma SinglePairsSnoc(paths: seq<seq<string>>, common: seq<string>, single: seq<nat>, x: string, i: nat)
    requires |common| == |single| && ValuesAt(paths, i) == {x}
    requires forall j :: 0 <= j < |common| ==> ValuesAt(paths, single[j]) == {common[j]}
    ensures forall j :: 0 <= j < |common| + 1 ==> ValuesAt(paths, (single + [i])[j]) == {(common + [x])[j]}
  {
    forall j | 0 <= j < |common| + 1
      ensures ValuesAt(paths, (single + [i])[j]) == {(common + [x])[j]}
    {
      if j < |common| {
        assert (common + [x])[j] == common[j] && (single + [i])[j] == single[j];
      }
    }
  }

  lemma {:induction false} ClassifyCommon(paths: seq<seq<string>>, n: nat)
    requires n <= MaxLen(paths)
    ensures var common, single := Classify(paths, n).0, SinglePositions(paths, n);
      && |common| == |single|
      && forall j :: 0 <= j < |common| ==> ValuesAt(paths, single[j]) == {common[j]}
  {
    if n > 0 {
      ClassifyCommon(paths, n - 1);
      var common, single := Classify(paths, n - 1).0, SinglePositions(paths, n - 1);
      var common', single' := Classify(paths, n).0, SinglePositions(paths, n);
      if |ValuesAt(paths, n - 1)| == 1 {
        assert exists k :: 0 <= k < |paths| && n - 1 < |paths[k]|;
        FirstAtIn(paths, n - 1);
        SingletonOf(ValuesAt(paths, n - 1), FirstAt(paths, n - 1));
        assert common' == common + [FirstAt(paths, n - 1)];
        assert single' == single + [n - 1];
        SinglePairsSnoc(paths, common, single, FirstAt(paths, n - 1), n - 1);
      } else {
        assert common' == common;
        assert single' == single;
      }
    } else {
      assert Classify(paths, n).0 == [];
    }
  }

  /** A successful analysis had messages; its splits followed by its
      compares are the positions below the longest path that do not hold
      one value only, in increasing order, with at most one compare
      position; the j-th common value is the one value seen at the j-th
      position that holds one value only. */
  lemma AnalyzeSpecMeaning(messages: seq<Message>)
    requires AnalyzeSpec(messages).Ok?
    ensures messages != []
    ensures var axes := AnalyzeSpec(messages).value;
      var paths := ParseAll(messages).value;
      var unique := axes.splits + axes.compares;
      && |axes.compares| <= 1
      && |axes.common| + |unique| == MaxLen(paths)
      && (forall j :: 0 <= j < |unique| ==> unique[j] < MaxLen(paths) && |ValuesAt(paths, unique[j])| != 1)
      && (forall j, j' :: 0 <= j < j' < |unique| ==> unique[j] < unique[j'])
      && (forall i :: 0 <= i < MaxLen(paths) && |ValuesAt(paths, i)| != 1 ==> i in unique)
      && |axes.common| == |SinglePositions(paths, MaxLen(paths))|
      && (forall j :: 0 <= j < |axes.common| ==>
            ValuesAt(paths, SinglePositions(paths, MaxLen(paths))[j]) == {axes.common[j]})
  {
    var paths := ParseAll(messages).value;
    ClassifyUnique(paths, MaxLen(paths));
    ClassifyComplete(paths, MaxLen(paths));
    ClassifyCount(paths, MaxLen(paths));
    ClassifyCommon(paths, MaxLen(paths));
  }

  lemma ValuesAtSnoc(paths: seq<seq<string>>, p: nat, i: nat)
    requires p < |paths|
    ensures ValuesAt(paths[..p + 1], i) == ValuesAt(paths[..p], i) + (if i < |paths[p]| then {paths[p][i]} else {})
  {
    assert paths[..p + 1][..p] == paths[..p];
  }

  /** `position_values[i]` of the `defaultdict(set)`. */
  function Get(values: map<nat, set<string>>, i: nat): set<string> {
    if i in values then values[i] else {}
  }

  /** `analyze_cascade_paths(messages)`: the ids are parsed, the values at
      each position collected, and each position up to the longest path
      is classified; `max` of no paths raises `ValueError`. */
  method AnalyzeCascadePaths(messages: seq<Message>) returns (r: Result<Axes>)
    ensures r == AnalyzeSpec(messages)
  {
    var paths := ParsePaths(messages);
    if paths.Err? {
      return Err(paths.error);
    }
    var values := CollectValues(paths.value);
    if paths.value == [] {
      return Err(ValueError);
    }
    var common, unique := ClassifyPositions(paths.value, values);
    var axes: Axes;
    if |unique| == 0 {
      axes := Axes(common, [], []);
    } else if |unique| == 1 {
      axes := Axes(common, [unique[0]], []);
    } else {
      axes := Axes(common, unique[..|unique| - 1], [unique[|unique| - 1]]);
    }
    r := Ok(axes);
  }

  /** `[parse_cascade_id(msg.cascade_id) for msg in messages]`. */
  method ParsePaths(messages: seq<Message>) returns (r: Result<seq<seq<string>>>)
    ensures r == ParseAll(messages)
  {
    var paths: seq<seq<string>> := [];
    var k := 0;
    while k < |messages|
      invariant 0 <= k <= |messages|
      invariant ParseAll(messages[..k]) == Ok(paths)
    {
      var c := ParseCascadeId(messages[k].cascadeId);
      PrefixSnoc(messages, k);
      assert messages[..k + 1][..k] == messages[..k];
      if c.Err? {
        ParseAllErrorStays(messages, k + 1);
        return Err(c.error);
      }
      paths := paths + [c.value];
      k := k + 1;
    }
    assert messages[..k] == messages;
    r := Ok(paths);
  }

  /** The loops filling `position_values`. */
  method CollectValues(paths: seq<seq<string>>) returns (values: map<nat, set<string>>)
    ensures forall i: nat :: Get(values, i) == ValuesAt(paths, i)
  {
    values := map[];
    var p := 0;
    while p < |paths|
      invariant 0 <= p <= |paths|
      invariant forall i: nat :: Get(values, i) == ValuesAt(paths[..p], i)
    {
      var path := paths[p];
      var q := 0;
      while q < |path|
        invariant 0 <= q <= |path|
        invariant forall i: nat :: Get(values, i) == ValuesAt(paths[..p], i) + (if i < q then {path[i]} else {})
      {
        values := values[q := Get(values, q) + {path[q]}];
        q := q + 1;
      }
      forall i: nat ensures Get(values, i) == ValuesAt(paths[..p + 1], i) {
        ValuesAtSnoc(paths, p, i);
      }
      p := p + 1;
    }
    assert paths[..p] == paths;
  }

  /** The loop over `range(max_len)` sorting positions into `common` and
      `unique`. */
  method ClassifyPositions(paths: seq<seq<string>>, values: map<nat, set<string>>)
    returns (common: seq<string>, unique: seq<nat>)
    requires paths != [] && forall i: nat :: Get(values, i) == ValuesAt(paths, i)
    ensures (common, unique) == Classify(paths, MaxLen(paths))
  {
    var maxLen := MaxLen(paths);
    common, unique := [], [];
    var i := 0;
    while i < maxLen
      invariant 0 <= i <= maxLen
      invariant (common, unique) == Classify(paths, i)
    {
      var vs := Get(values, i);
      if |vs| == 1 {
        var v :| v in vs;
        assert exists k :: 0 <= k < |paths| && i < |paths[k]|;
        FirstAtIn(paths, i);
        SingletonOf(vs, v);
        common := common + [v];
      } else {
        unique := unique + [i];
      }
      i := i + 1;
    }
  }

  // ---------------------------------------------------------------- group_by_splits

  /** `components[i]` with Python's negative indices. */
  function PyIndex(s: seq<string>, i: int): (r: Result<string>)
    ensures r.Ok? <==> -|s| <= i < |s|
    ensures 0 <= i < |s| ==> r == Ok(s[i])
    ensures -|s| <= i < 0 ==> r == Ok(s[|s| + i])
  {
    if 0 <= i < |s| then Ok(s[i])
    else if -|s| <= i < 0 then Ok(s[|s| + i])
    else Err(IndexError)
  }

  /** `tuple(components[i] for i in idx)`. */
  function Pick(components: seq<string>, idx: seq<int>): (r: Result<seq<string>>)
    ensures r.Ok? ==> |r.value| == |idx| && forall j :: 0 <= j < |idx| ==> PyIndex(components, idx[j]) == Ok(r.value[j])
    ensures r.Err? ==> r.error == IndexError && exists j :: 0 <= j < |idx| && PyIndex(components, idx[j]).Err?
  {
    if idx == [] then Ok([])
    else
      match PyIndex(components, idx[0])
      case Err(e) => Err(e)
      case Ok(c) =>
        match Pick(components, idx[1..])
        case Err(e) =>
          assert exists j :: 0 <= j < |idx[1..]| && PyIndex(components, idx[1..][j]).Err?;
          var j :| 0 <= j < |idx[1..]| && PyIndex(components, idx[1..][j]).Err?;
          assert idx[j + 1] == idx[1..][j];
          Err(e)
        case Ok(rest) =>
          assert forall j :: 1 <= j < |idx| ==> idx[j] == idx[1..][j - 1];
          Ok([c] + rest)
  }

  /** A split or compare key: the picked components, or the one-element
      default when no position is given. */
  function KeyOf(components: seq<string>, idx: seq<int>, default: string): Result<seq<string>> {
    if idx == [] then Ok([default]) else Pick(components, idx)
  }

  /** One message with its split and compare keys. */
  datatype Entry = Entry(split: seq<string>, compare: seq<string>, msg: Message)

  function EntryOf(msg: Message, splits: seq<int>, compares: seq<int>): (r: Result<Entry>)
    ensures r.Ok? ==> r.value.msg == msg
    ensures r.Ok? && splits == [] ==> r.value.split == ["all"]
    ensures r.Ok? && compares == [] ==> r.value.compare == ["value"]
  {
    match Components(msg.cascadeId)
    case Err(e) => Err(e)
    case Ok(components) =>
      match KeyOf(components, splits, "all")
      case Err(e) => Err(e)
      case Ok(split) =>
        match KeyOf(components, compares, "value")
        case Err(e) => Err(e)
        case Ok(compare) => Ok(Entry(split, compare, msg))
  }

  function Entries(messages: seq<Message>, splits: seq<int>, compares: seq<int>): (r: Result<seq<Entry>>)
    ensures r.Ok? ==> |r.value| == |messages|
  {
    if messages == [] then Ok([])
    else
      match Entries(messages[..|messages| - 1], splits, compares)
      case Err(e) => Err(e)
      case Ok(es) =>
        match EntryOf(messages[|messages| - 1], splits, compares)
        case Err(e) => Err(e)
        case Ok(entry) => Ok(es + [entry])
  }

  lemma {:induction false} EntriesErrorStays(messages: seq<Message>, splits: seq<int>, compares: seq<int>, j: nat)
    requires j <= |messages| && Entries(messages[..j], splits, compares).Err?
    ensures Entries(messages, splits, compares) == Entries(messages[..j], splits, compares)
    decreases |messages| - j
  {
    if j < |messages| {
      PrefixSnoc(messages, j);
      assert messages[..j + 1][..j] == messages[..j];
      EntriesErrorStays(messages, splits, compares, j + 1);
    } else {
      assert messages[..j] == messages;
    }
  }

  /** The groups in the order their keys first appeared, each holding the
      `(compare_key, msg)` pairs appended to it. */
  datatype Grouping = Grouping(keys: seq<seq<string>>, groups: map<seq<string>, seq<(seq<string>, Message)>>)

  /** `groups[split_key].append((compare_key, msg))` on a `defaultdict(list)`. */
  function Add(g: Grouping, e: Entry): Grouping {
    if e.split in g.groups then Grouping(g.keys, g.groups[e.split := g.groups[e.split] + [(e.compare, e.msg)]])
    else Grouping(g.keys + [e.split], g.groups[e.split := [(e.compare, e.msg)]])
  }

  function Grouped(entries: seq<Entry>): Grouping {
    if entries == [] then Grouping([], map[])
    else Add(Grouped(entries[..|entries| - 1]), entries[|entries| - 1])
  }

  function GroupBy(messages: seq<Message>, splits: seq<int>, compares: seq<int>): (r: Result<Grouping>)
    ensures r.Ok? <==> Entries(messages, splits, compares).Ok?
  {
    match Entries(messages, splits, compares)
    case Err(e) => Err(e)
    case Ok(entries) => Ok(Grouped(entries))
  }

  /** The `(compare_key, msg)` pairs of the entries with split key `key`, in order. */
  function Select(entries: seq<Entry>, key: seq<string>): seq<(seq<string>, Message)> {
    if entries == [] then []
    else if entries[0].split == key then [(entries[0].compare, entries[0].msg)] + Select(entries[1..], key)
    else Select(entries[1..], key)
  }

  lemma {:induction false} SelectSnoc(entries: seq<Entry>, e: Entry, key: seq<string>)
    ensures Select(entries + [e], key) == Select(entries, key) + (if e.split == key then [(e.compare, e.msg)] else [])
  {
    if entries == [] {
      assert entries + [e] == [e];
      assert [e][1..] == [];
    } else {
      assert (entries + [e])[1..] == entries[1..] + [e];
      SelectSnoc(entries[1..], e, key);
    }
  }

  lemma {:induction false} SelectNone(entries: seq<Entry>, key: seq<string>)
    requires forall j :: 0 <= j < |entries| ==> entries[j].split != key
    ensures Select(entries, key) == []
  {
    if entries != [] {
      SelectNone(entries[1..], key);
    }
  }

  /** A group exists exactly for the split keys that occur; the keys are
      listed once each, in the order they first occur. */
  lemma {:induction false} GroupedKeys(entries: seq<Entry>)
    ensures forall key :: key in Grouped(entries).groups <==> exists j :: 0 <= j < |entries| && entries[j].split == key
    ensures forall key :: key in Grouped(entries).groups <==> key in Grouped(entries).keys
    ensures forall j, j' :: 0 <= j < j' < |Grouped(entries).keys| ==> Grouped(entries).keys[j] != Grouped(entries).keys[j']
  {
    if entries != [] {
      var init := entries[..|entries| - 1];
      GroupedKeys(init);
      assert forall j :: 0 <= j < |init| ==> entries[j] == init[j];
    }
  }

  /** Every message lands in the group of its split key, after the earlier
      messages with that key and in input order. */
  lemma {:induction false} GroupedSelect(entries: seq<Entry>)
    ensures forall key :: key in Grouped(entries).groups ==> Grouped(entries).groups[key] == Select(entries, key)
  {
    if entries != [] {
      var init := entries[..|entries| - 1];
      var e := entries[|entries| - 1];
      GroupedSelect(init);
      GroupedKeys(init);
      assert entries == init + [e];
      forall key | key in Grouped(entries).groups ensures Grouped(entries).groups[key] == Select(entries, key) {
        SelectSnoc(init, e, key);
        if key == e.split && key !in Grouped(init).groups {
          SelectNone(init, key);
        }
      }
    }
  }

  /** `group_by_splits(messages, splits, compares)`. */
  method GroupBySplits(messages: seq<Message>, splits: seq<int>, compares: seq<int>) returns (r: Result<Grouping>)
    ensures r == GroupBy(messages, splits, compares)
  {
    var keys: seq<seq<string>> := [];
    var groups: map<seq<string>, seq<(seq<string>, Message)>> := map[];
    var k := 0;
    while k < |messages|
      invariant 0 <= k <= |messages|
      invariant Entries(messages[..k], splits, compares).Ok?
      invariant Grouped(Entries(messages[..k], splits, compares).value) == Grouping(keys, groups)
    {
      var msg := messages[k];
      PrefixSnoc(messages, k);
      assert messages[..k + 1][..k] == messages[..k];
      var entry := GroupEntry(msg, splits, compares);
      if entry.Err? {
        EntriesErrorStays(messages, splits, compares, k + 1);
        return Err(entry.error);
      }
      var e := entry.value;
      if e.split in groups {
        groups := groups[e.split := groups[e.split] + [(e.compare, msg)]];
      } else {
        keys := keys + [e.split];
        groups := groups[e.split := [(e.compare, msg)]];
      }
      k := k + 1;
    }
    assert messages[..k] == messages;
    r := Ok(Grouping(keys, groups));
  }

  /** The parse and the two keys of one message. */
  method GroupEntry(msg: Message, splits: seq<int>, compares: seq<int>) returns (r: Result<Entry>)
    ensures r == EntryOf(msg, splits, compares)
  {
    var components := ParseCascadeId(msg.cascadeId);
    if components.Err? {
      return Err(components.error);
    }
    var split := KeyOf(components.value, splits, "all");
    if split.Err? {
      return Err(split.error);
    }
    var compare := KeyOf(components.value, compares, "value");
    if compare.Err? {
      return Err(compare.error);
    }
    r := Ok(Entry(split.value, compare.value, msg));
  }
}
