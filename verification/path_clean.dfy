/** Lexical path cleaning: a path is a stack of components, and cleaning is rendering that stack. */
module PathClean {
  import opened Bits
  import opened Endian
  import opened PaxText

  const SLASH: u8 := 0x2F
  const ONE_DOT: Bytes := [0x2E]
  const TWO_DOTS: Bytes := [0x2E, 0x2E]

  /** The components of a path, empty ones included. */
  function Split(s: Bytes): (parts: seq<Bytes>)
    ensures |parts| > 0 && forall i :: 0 <= i < |parts| ==> SLASH !in parts[i]
    decreases |s|
  {
    var i := FirstIndex(s, SLASH);
    if i == |s| then [s] else [s[..i]] + Split(s[i + 1..])
  }

  predicate IsReal(c: Bytes) {
    c != [] && c != ONE_DOT && c != TWO_DOTS && SLASH !in c
  }

  /** One component on the stack: nothing, a step up, or a step down. */
  function Push(rooted: bool, stack: seq<Bytes>, c: Bytes): seq<Bytes> {
    if c == [] || c == ONE_DOT then stack
    else if c == TWO_DOTS then
      if |stack| > 0 && stack[|stack| - 1] != TWO_DOTS then stack[..|stack| - 1]
      else if rooted then stack
      else stack + [c]
    else stack + [c]
  }

  function PushAll(rooted: bool, stack: seq<Bytes>, parts: seq<Bytes>): seq<Bytes>
    decreases |parts|
  {
    if |parts| == 0 then stack else PushAll(rooted, Push(rooted, stack, parts[0]), parts[1..])
  }

  /** Components with a slash between them. */
  function Join(stack: seq<Bytes>): Bytes {
    if |stack| == 0 then []
    else if |stack| == 1 then stack[0]
    else Join(stack[..|stack| - 1]) + [SLASH] + stack[|stack| - 1]
  }

  function Render(rooted: bool, stack: seq<Bytes>): Bytes {
    if rooted then [SLASH] + Join(stack) else Join(stack)
  }

  predicate Rooted(path: Bytes) {
    |path| > 0 && path[0] == SLASH
  }

  function StackOf(path: Bytes): seq<Bytes> {
    PushAll(Rooted(path), [], Split(path))
  }

  /** The normal form of a path. */
  function Clean(path: Bytes): Bytes {
    var out := Render(Rooted(path), StackOf(path));
    if out == [] then ONE_DOT else out
  }

  /** A stack that pushing can build: leading steps up, unless rooted, then real components. */
  predicate Normal(rooted: bool, stack: seq<Bytes>, ups: nat) {
    && ups <= |stack| && (rooted ==> ups == 0)
    && (forall i :: 0 <= i < ups ==> stack[i] == TWO_DOTS)
    && (forall i :: ups <= i < |stack| ==> IsReal(stack[i]))
  }

  /** Taking one component off the text leaves an empty one in its place. */
  lemma SplitStep(rooted: bool, stack: seq<Bytes>, s: Bytes)
    ensures var i := FirstIndex(s, SLASH);
            PushAll(rooted, stack, Split(s)) == PushAll(rooted, Push(rooted, stack, s[..i]), Split(s[i..]))
  {
    hide FirstIndex, Push;
    var i := FirstIndex(s, SLASH);
    var t := s[i..];
    var stack' := Push(rooted, stack, s[..i]);
    if i == |s| {
      assert s[..i] == s && t == [];
      assert [s][1..] == [];
      SplitEnd(rooted, stack');
    } else {
      assert t[1..] == s[i + 1..];
      assert Split(s)[1..] == Split(s[i + 1..]);
      SkipSlash(rooted, stack', t);
    }
  }

  lemma SplitEnd(rooted: bool, stack: seq<Bytes>)
    ensures PushAll(rooted, stack, Split([])) == stack
  {
    assert Split([]) == [[]];
  }

  lemma SkipSlash(rooted: bool, stack: seq<Bytes>, s: Bytes)
    requires |s| > 0 && s[0] == SLASH
    ensures PushAll(rooted, stack, Split(s)) == PushAll(rooted, stack, Split(s[1..]))
  {
    FirstIndexIs(s, SLASH, 0);
    assert s[..0] == [] && Split(s)[1..] == Split(s[1..]);
  }

  lemma JoinSnoc(stack: seq<Bytes>, c: Bytes)
    ensures Join(stack + [c]) == if stack == [] then c else Join(stack) + [SLASH] + c
  {
    assert (stack + [c])[..|stack|] == stack;
  }

  predicate NoneEmpty(stack: seq<Bytes>) {
    forall i :: 0 <= i < |stack| ==> stack[i] != []
  }

  lemma {:induction false} JoinGrows(stack: seq<Bytes>, k: nat)
    requires k <= |stack| && NoneEmpty(stack)
    ensures k == |stack| ==> stack[..k] == stack
    ensures k < |stack| ==> |Join(stack[..k])| < |Join(stack)|
  {
    if k < |stack| {
      var f := stack[..|stack| - 1];
      assert f[..k] == stack[..k] && stack == f + [stack[|stack| - 1]];
      JoinSnoc(f, stack[|stack| - 1]);
      JoinGrows(f, k);
    }
  }

  // ----- The loop.

  method CopyElement(path: Bytes, start: nat, prefix: Bytes) returns (r: nat, out: Bytes)
    requires start < |path|
    ensures var i := FirstIndex(path[start..], SLASH);
            r == start + i && out == prefix + path[start..][..i]
  {
    r, out := start, prefix;
    while r < |path| && path[r] != SLASH
      invariant start <= r <= |path| && out == prefix + path[start..r]
      invariant FirstIndex(path[start..], SLASH) == r - start + FirstIndex(path[r..], SLASH)
      decreases |path| - r
    {
      assert path[r..][1..] == path[r + 1..];
      out := out + [path[r]];
      r := r + 1;
    }
    assert path[start..][..r - start] == path[start..r];
  }

  /** Where the last component beyond `dotdot` begins, counting the slash before it. */
  method LastElement(out: Bytes, dotdot: nat) returns (w: nat)
    requires |out| > dotdot
    ensures dotdot <= w < |out| && (w == dotdot || out[w] == SLASH)
    ensures forall j :: w < j < |out| ==> out[j] != SLASH
  {
    w := |out| - 1;
    while w > dotdot && out[w] != SLASH
      invariant dotdot <= w < |out| && forall j :: w < j < |out| ==> out[j] != SLASH
    {
      w := w - 1;
    }
  }

  /** The bytes written so far are the stack so far; `dotdot` is where its leading steps up end. */
  ghost predicate Written(rooted: bool, stack: seq<Bytes>, ups: nat, out: Bytes, dotdot: nat) {
    && Normal(rooted, stack, ups)
    && out == Render(rooted, stack)
    && dotdot == |Render(rooted, stack[..ups])|
  }

  lemma WrittenLength(rooted: bool, stack: seq<Bytes>, ups: nat, out: Bytes, dotdot: nat)
    requires Written(rooted, stack, ups, out, dotdot)
    ensures |out| > dotdot <==> |stack| > ups
    ensures |out| == dotdot <==> |stack| == ups
    ensures |out| > (if rooted then 1 else 0) <==> stack != []
    ensures |out| >= (if rooted then 1 else 0)
  {
    hide Join;
    JoinGrows(stack, ups);
    JoinGrows(stack, 0);
    assert Join(stack[..0]) == [] by { JoinNone(); }
  }

  lemma JoinNone()
    ensures Join([]) == []
  {
  }

  /** Truncating at the last component pops it. */
  lemma Popped(rooted: bool, stack: seq<Bytes>, ups: nat, out: Bytes, dotdot: nat, w: nat)
    requires Written(rooted, stack, ups, out, dotdot) && |stack| > ups
    requires dotdot <= w < |out| && (w == dotdot || out[w] == SLASH)
    requires forall j :: w < j < |out| ==> out[j] != SLASH
    ensures Written(rooted, stack[..|stack| - 1], ups, out[..w], dotdot)
  {
    hide Join, IsReal;
    var f, c := stack[..|stack| - 1], stack[|stack| - 1];
    assert IsReal(c) && SLASH !in c by { RealShape(c); }
    assert stack == f + [c] && f[..ups] == stack[..ups];
    JoinSnoc(f, c);
    JoinNone();
    if f != [] {
      assert NoneEmpty(f) by { NormalNoneEmpty(rooted, stack, ups); }
      JoinGrows(f, ups);
      var p := |Render(rooted, f)|;
      assert out == Render(rooted, f) + [SLASH] + c;
      assert out[p] == SLASH;
      assert w <= p;
      assert out[..p] == Render(rooted, f);
    } else {
      assert w == dotdot;
    }
  }

  lemma RealShape(c: Bytes)
    requires IsReal(c)
    ensures SLASH !in c && c != []
  {
  }

  lemma NormalNoneEmpty(rooted: bool, stack: seq<Bytes>, ups: nat)
    requires Normal(rooted, stack, ups)
    ensures NoneEmpty(stack)
  {
  }

  /** How the loop tells the kinds of component apart by looking at most two bytes ahead. */
  lemma Classify(s: Bytes)
    requires |s| > 0 && s[0] != SLASH
    ensures var i := FirstIndex(s, SLASH);
            var e := s[..i];
            && i > 0
            && (s[0] == DOT && (|s| == 1 || s[1] == SLASH) <==> e == ONE_DOT)
            && (s[0] == DOT && |s| > 1 && s[1] == DOT && (|s| == 2 || s[2] == SLASH) <==> e == TWO_DOTS)
            && (e != ONE_DOT && e != TWO_DOTS ==> IsReal(e))
  {
    var i := FirstIndex(s, SLASH);
    var e := s[..i];
    assert |s| > 1 && s[1] == SLASH ==> i == 1;
    assert |s| > 2 && s[1] != SLASH && s[2] == SLASH ==> i == 2;
    assert |s| == 1 ==> i == 1;
    assert |s| == 2 && s[1] != SLASH ==> i == 2;
    assert e == ONE_DOT ==> s[0] == DOT && i == 1;
    assert e == TWO_DOTS ==> s[0] == e[0] && s[1] == e[1] && i == 2;
  }

  /** Writing a component, with a slash before it unless it comes first, pushes it. */
  lemma Appended(rooted: bool, stack: seq<Bytes>, ups: nat, out: Bytes, dotdot: nat, c: Bytes, sep: Bytes)
    requires Written(rooted, stack, ups, out, dotdot) && sep == (if stack == [] then [] else [SLASH])
    ensures IsReal(c) ==> Written(rooted, stack + [c], ups, out + sep + c, dotdot)
    ensures !rooted && ups == |stack| && c == TWO_DOTS ==>
              Written(rooted, stack + [c], ups + 1, out + sep + c, |out + sep + c|)
  {
    hide Join, IsReal;
    JoinSnoc(stack, c);
    JoinNone();
    assert (stack + [c])[..ups] == stack[..ups];
    assert (stack + [c])[..|stack| + 1] == stack + [c];
  }

  lemma TopIsReal(rooted: bool, stack: seq<Bytes>, ups: nat)
    requires Normal(rooted, stack, ups) && stack != []
    ensures stack[|stack| - 1] != TWO_DOTS <==> |stack| > ups
  {
  }

  /** `path_clean`: one pass over the bytes, cutting back in place. */
  method CleanPath(path: Bytes) returns (out: Bytes)
    ensures out == Clean(path)
  {
    hide Join, Split, PushAll, IsReal, Render, Normal;
    if path == [] {
      assert StackOf([]) == [] by { SplitEnd(false, []); }
      assert Render(false, []) == [] by { RenderNone(); }
      return ONE_DOT;
    }
    var rooted := path[0] == SLASH;
    var n := |path|;
    out := [];
    var r: nat := 0;
    var dotdot: nat := 0;
    ghost var stack: seq<Bytes> := [];
    ghost var ups: nat := 0;
    assert path[0..] == path;
    if rooted {
      out := [SLASH];
      r := 1;
      dotdot := 1;
      SkipSlash(true, [], path);
    }
    NothingWritten(rooted);
    while r < n
      invariant r <= n
      invariant Written(rooted, stack, ups, out, dotdot)
      invariant PushAll(rooted, stack, Split(path[r..])) == StackOf(path)
      decreases n - r
    {
      ghost var s := path[r..];
      if path[r] == SLASH {
        SkipSlash(rooted, stack, s);
        assert s[1..] == path[r + 1..];
        r := r + 1;
      } else {
        ghost var i := FirstIndex(s, SLASH);
        Classify(s);
        SplitStep(rooted, stack, s);
        assert s[i..] == path[r + i..];
        WrittenLength(rooted, stack, ups, out, dotdot);
        if path[r] == DOT && (r + 1 == n || path[r + 1] == SLASH) {
          r := r + 1;
        } else if path[r] == DOT && r + 1 < n && path[r + 1] == DOT && (r + 2 == n || path[r + 2] == SLASH) {
          r := r + 2;
          out, dotdot, stack, ups := StepUp(rooted, stack, ups, out, dotdot);
        } else {
          ghost var was := out;
          if (rooted && |out| != 1) || (!rooted && out != []) {
            out := out + [SLASH];
          }
          Appended(rooted, stack, ups, was, dotdot, s[..i], if stack == [] then [] else [SLASH]);
          assert out == was + (if stack == [] then [] else [SLASH]);
          stack := stack + [s[..i]];
          r, out := CopyElement(path, r, out);
        }
      }
    }
    SplitEnd(rooted, stack);
    assert path[n..] == [];
    if out == [] {
      return ONE_DOT;
    }
  }

  lemma RenderNone()
    ensures Render(false, []) == [] && Render(true, []) == [SLASH]
  {
  }

  lemma NothingWritten(rooted: bool)
    ensures Written(rooted, [], 0, if rooted then [SLASH] else [], if rooted then 1 else 0)
  {
  }

  /** A `..` component: cut back to the last slash, or keep it, or drop it at the root. */
  method StepUp(rooted: bool, ghost stack: seq<Bytes>, ghost ups: nat, out: Bytes, dotdot: nat)
    returns (out': Bytes, dotdot': nat, ghost stack': seq<Bytes>, ghost ups': nat)
    requires Written(rooted, stack, ups, out, dotdot)
    ensures stack' == Push(rooted, stack, TWO_DOTS)
    ensures Written(rooted, stack', ups', out', dotdot')
  {
    hide Join, IsReal, Render;
    out', dotdot', stack', ups' := out, dotdot, stack, ups;
    WrittenLength(rooted, stack, ups, out, dotdot);
    if stack != [] {
      TopIsReal(rooted, stack, ups);
    }
    if |out| > dotdot {
      var w := LastElement(out, dotdot);
      Popped(rooted, stack, ups, out, dotdot, w);
      stack', out' := stack[..|stack| - 1], out[..w];
    } else if !rooted {
      Appended(rooted, stack, ups, out, dotdot, TWO_DOTS, if stack == [] then [] else [SLASH]);
      if out' != [] {
        out' := out' + [SLASH];
      }
      out' := out' + TWO_DOTS;
      dotdot' := |out'|;
      stack', ups' := stack + [TWO_DOTS], ups + 1;
    }
  }

  // ----- Cleaning is idempotent: a rendered stack reads back as itself.

  lemma PushNormal(rooted: bool, stack: seq<Bytes>, ups: nat, c: Bytes) returns (ups': nat)
    requires Normal(rooted, stack, ups) && SLASH !in c
    ensures Normal(rooted, Push(rooted, stack, c), ups')
  {
    ups' := ups;
    if c == TWO_DOTS && !rooted && !(|stack| > 0 && stack[|stack| - 1] != TWO_DOTS) {
      ups' := ups + 1;
    }
  }

  lemma {:induction false} PushAllNormal(rooted: bool, stack: seq<Bytes>, ups: nat, parts: seq<Bytes>) returns (ups': nat)
    requires Normal(rooted, stack, ups) && forall i :: 0 <= i < |parts| ==> SLASH !in parts[i]
    ensures Normal(rooted, PushAll(rooted, stack, parts), ups')
    decreases |parts|
  {
    if |parts| == 0 {
      ups' := ups;
    } else {
      ups' := PushNormal(rooted, stack, ups, parts[0]);
      ups' := PushAllNormal(rooted, Push(rooted, stack, parts[0]), ups', parts[1..]);
    }
  }

  /** Pushing a normal stack one by one rebuilds it. */
  lemma {:induction false} Rebuild(rooted: bool, stack: seq<Bytes>, ups: nat, k: nat)
    requires Normal(rooted, stack, ups) && k <= |stack|
    ensures PushAll(rooted, stack[..k], stack[k..]) == stack
    decreases |stack| - k
  {
    if k == |stack| {
      assert stack[..k] == stack;
    } else {
      assert Push(rooted, stack[..k], stack[k]) == stack[..k] + [stack[k]] == stack[..k + 1];
      assert stack[k..][0] == stack[k] && stack[k..][1..] == stack[k + 1..];
      Rebuild(rooted, stack, ups, k + 1);
    }
  }

  lemma SplitFirst(s: Bytes, i: nat)
    requires i < |s| && s[i] == SLASH && SLASH !in s[..i]
    ensures Split(s) == [s[..i]] + Split(s[i + 1..])
  {
    hide FirstIndex;
    forall j | 0 <= j < i ensures s[j] != SLASH {
      assert s[j] == s[..i][j];
    }
    FirstIndexIs(s, SLASH, i);
  }

  /** A slash separates the components on its two sides. */
  lemma {:induction false} SplitAtSlash(a: Bytes, b: Bytes)
    ensures Split(a + [SLASH] + b) == Split(a) + Split(b)
    decreases |a|
  {
    hide FirstIndex, Split;
    var s := a + [SLASH] + b;
    var i := FirstIndex(a, SLASH);
    assert s[..i] == a[..i];
    SplitFirst(s, i);
    if i == |a| {
      assert a[..i] == a && s[i + 1..] == b;
      SplitOne(a);
    } else {
      assert s[i + 1..] == a[i + 1..] + [SLASH] + b;
      SplitAtSlash(a[i + 1..], b);
      SplitFirst(a, i);
      assert [a[..i]] + (Split(a[i + 1..]) + Split(b)) == ([a[..i]] + Split(a[i + 1..])) + Split(b);
    }
  }

  predicate Solid(stack: seq<Bytes>) {
    forall i :: 0 <= i < |stack| ==> stack[i] != [] && SLASH !in stack[i]
  }

  lemma SplitOne(c: Bytes)
    requires SLASH !in c
    ensures Split(c) == [c]
  {
    assert FirstIndex(c, SLASH) == |c|;
  }

  lemma {:induction false} SplitJoin(stack: seq<Bytes>)
    requires Solid(stack) && stack != []
    ensures Split(Join(stack)) == stack
  {
    if |stack| == 1 {
      SplitOne(stack[0]);
    } else {
      var f, c := stack[..|stack| - 1], stack[|stack| - 1];
      SplitJoin(f);
      SplitAtSlash(Join(f), c);
      SplitOne(c);
      assert stack == f + [c];
    }
  }

  lemma {:induction false} JoinFirst(stack: seq<Bytes>)
    requires Solid(stack) && stack != []
    ensures Join(stack) != [] && Join(stack)[0] == stack[0][0] != SLASH
  {
    if |stack| > 1 {
      JoinFirst(stack[..|stack| - 1]);
    }
  }

  lemma StackOfRender(rooted: bool, stack: seq<Bytes>, ups: nat)
    requires Normal(rooted, stack, ups) && (rooted || stack != [])
    ensures Rooted(Render(rooted, stack)) == rooted && StackOf(Render(rooted, stack)) == stack
    ensures Render(rooted, stack) != []
  {
    hide Join, Split, PushAll;
    var out := Render(rooted, stack);
    if stack == [] {
      JoinNone();
      assert out[1..] == [];
      SkipSlash(true, [], out);
      SplitEnd(true, []);
    } else {
      SplitJoin(stack);
      JoinFirst(stack);
      Rebuild(rooted, stack, ups, 0);
      assert stack[..0] == [] && stack[0..] == stack;
      if rooted {
        assert out[1..] == Join(stack);
        SkipSlash(true, [], out);
      }
    }
  }

  lemma CleanShape(path: Bytes) returns (ups: nat)
    ensures Normal(Rooted(path), StackOf(path), ups)
  {
    ups := PushAllNormal(Rooted(path), [], 0, Split(path));
  }

  /** Cleaning a clean path changes nothing. */
  lemma CleanTwice(path: Bytes)
    ensures Clean(Clean(path)) == Clean(path)
  {
    hide Join, Split, PushAll, Normal;
    var ups := CleanShape(path);
    var rooted, stack := Rooted(path), StackOf(path);
    if rooted || stack != [] {
      StackOfRender(rooted, stack, ups);
    } else {
      RenderNone();
      DotIsClean();
    }
  }

  lemma DotIsClean()
    ensures Clean(ONE_DOT) == ONE_DOT
  {
    SplitOne(ONE_DOT);
    assert PushAll(false, [], [ONE_DOT]) == PushAll(false, [], [ONE_DOT][1..]);
  }

  // ----- Joining below a directory.

  /** `path_join` of two elements: from the first that is not empty, cleaned. */
  function JoinTwo(a: Bytes, b: Bytes): Bytes {
    if a != [] then Clean(a + [SLASH] + b) else if b != [] then Clean(b) else []
  }

  /** The components of a name that mean something. */
  function RealParts(parts: seq<Bytes>): (reals: seq<Bytes>)
    ensures (forall i :: 0 <= i < |parts| ==> SLASH !in parts[i]) && TWO_DOTS !in parts ==>
              forall i :: 0 <= i < |reals| ==> IsReal(reals[i])
  {
    if |parts| == 0 then []
    else if parts[0] == [] || parts[0] == ONE_DOT then RealParts(parts[1..])
    else [parts[0]] + RealParts(parts[1..])
  }

  /** Without steps up, pushing appends the real components. */
  lemma {:induction false} PushReals(rooted: bool, stack: seq<Bytes>, parts: seq<Bytes>)
    requires TWO_DOTS !in parts
    ensures PushAll(rooted, stack, parts) == stack + RealParts(parts)
    decreases |parts|
  {
    if |parts| > 0 {
      PushReals(rooted, Push(rooted, stack, parts[0]), parts[1..]);
    }
  }

  /** The path of a directory with components below it. */
  function Below(dest: Bytes, parts: seq<Bytes>): Bytes {
    if parts == [] then dest else dest + [SLASH] + Join(parts)
  }

  lemma {:induction false} JoinAppend(a: seq<Bytes>, b: seq<Bytes>)
    requires a != [] && b != []
    ensures Join(a + b) == Join(a) + [SLASH] + Join(b)
    decreases |b|
  {
    var f, c := b[..|b| - 1], b[|b| - 1];
    assert a + b == (a + f) + [c] && b == f + [c];
    JoinSnoc(a + f, c);
    JoinSnoc(f, c);
    if f == [] {
      assert a + f == a;
    } else {
      JoinAppend(a, f);
    }
  }

  lemma {:induction false} PushAllConcat(rooted: bool, stack: seq<Bytes>, a: seq<Bytes>, b: seq<Bytes>)
    ensures PushAll(rooted, stack, a + b) == PushAll(rooted, PushAll(rooted, stack, a), b)
    decreases |a|
  {
    if |a| == 0 {
      assert a + b == b;
    } else {
      assert (a + b)[0] == a[0] && (a + b)[1..] == a[1..] + b;
      PushAllConcat(rooted, Push(rooted, stack, a[0]), a[1..], b);
    }
  }

  /** The cleaned form of a name made absolute: its real components. */
  lemma AbsoluteName(name: Bytes)
    requires TWO_DOTS !in Split(name)
    ensures Clean([SLASH] + name) == [SLASH] + Join(RealParts(Split(name)))
    ensures Normal(true, RealParts(Split(name)), 0)
  {
    hide Join, Split, PushAll;
    var path := [SLASH] + name;
    assert path[1..] == name;
    SkipSlash(true, [], path);
    PushReals(true, [], Split(name));
    assert [] + RealParts(Split(name)) == RealParts(Split(name));
  }

  /** Joining a clean directory with an absolute clean path appends the components. */
  lemma JoinBelow(dest: Bytes, parts: seq<Bytes>)
    requires Clean(dest) == dest && dest != [SLASH] && dest != ONE_DOT
    requires Normal(true, parts, 0)
    ensures dest != [] && JoinTwo(dest, [SLASH] + Join(parts)) == Below(dest, parts)
  {
    hide Join, Split, PushAll, Normal;
    var rooted, stack := Rooted(dest), StackOf(dest);
    var ups := CleanShape(dest);
    RenderNone();
    assert stack != [] && dest == Render(rooted, stack);
    JoinStack(dest, parts);
    if parts == [] {
      assert stack + parts == stack;
    } else {
      JoinAppend(stack, parts);
    }
  }

  lemma PushRest(rooted: bool, stack: seq<Bytes>, parts: seq<Bytes>)
    requires Normal(true, parts, 0)
    ensures PushAll(rooted, stack, Split([SLASH] + Join(parts))) == stack + parts
  {
    hide Join, Split, PushAll;
    var rest := [SLASH] + Join(parts);
    assert rest[1..] == Join(parts);
    SkipSlash(rooted, stack, rest);
    if parts == [] {
      JoinNone();
      SplitEnd(rooted, stack);
      assert stack + parts == stack;
    } else {
      SplitJoin(parts);
      PushReals(rooted, stack, parts);
      RealsOfReals(parts);
    }
  }

  lemma {:induction false} RealsOfReals(parts: seq<Bytes>)
    requires forall i :: 0 <= i < |parts| ==> IsReal(parts[i])
    ensures RealParts(parts) == parts
  {
    if |parts| > 0 {
      RealsOfReals(parts[1..]);
      assert parts == [parts[0]] + parts[1..];
    }
  }

  method JoinTwoPaths(a: Bytes, b: Bytes) returns (r: Bytes)
    ensures r == JoinTwo(a, b)
  {
    if a != [] {
      r := CleanPath(a + [SLASH] + b);
    } else if b != [] {
      r := CleanPath(b);
    } else {
      r := [];
    }
  }

  /** Joining what was split gives the text back. */
  lemma {:induction false} JoinSplit(s: Bytes)
    ensures Join(Split(s)) == s
    decreases |s|
  {
    hide FirstIndex;
    var i := FirstIndex(s, SLASH);
    if i < |s| {
      JoinSplit(s[i + 1..]);
      JoinAppend([s[..i]], Split(s[i + 1..]));
      assert s == s[..i] + [SLASH] + s[i + 1..];
    }
  }

  /** The components of a clean path: an empty one in front if it is rooted, then its stack. */
  lemma CleanSplit(path: Bytes)
    ensures var rooted, stack, p := Rooted(path), StackOf(path), Clean(path);
            if stack == [] then p == if rooted then [SLASH] else ONE_DOT
            else Rooted(p) == rooted && Split(p) == (if rooted then [[]] else []) + stack
  {
    hide Join, Split, PushAll, Normal;
    var rooted, stack, p := Rooted(path), StackOf(path), Clean(path);
    var ups := CleanShape(path);
    RenderNone();
    JoinNone();
    if stack != [] {
      StackOfRender(rooted, stack, ups);
      SolidStack(rooted, stack, ups);
      SplitJoin(stack);
      if rooted {
        SplitAtSlash([], Join(stack));
        SplitOne([]);
        assert [] + [SLASH] + Join(stack) == p;
      } else {
        assert [] + stack == stack;
      }
    }
  }

  lemma SolidStack(rooted: bool, stack: seq<Bytes>, ups: nat)
    requires Normal(rooted, stack, ups)
    ensures Solid(stack) && ONE_DOT !in stack
  {
  }

  /** A directory above a clean path is clean, and neither the root nor the dot. */
  lemma AboveClean(dest: Bytes, path: Bytes)
    requires dest != [] && dest + [SLASH] <= Clean(path)
    ensures Clean(dest) == dest && dest != [SLASH] && dest != ONE_DOT
  {
    hide Join, Split, PushAll, Normal, Clean, StackOf;
    var p, rooted, stack := Clean(path), Rooted(path), StackOf(path);
    var rest := p[|dest| + 1..];
    assert p == dest + [SLASH] + rest;
    assert p[0] == dest[0];
    SplitAtSlash(dest, rest);
    CleanSplit(path);
    assert |p| >= 2;
    var ups := CleanShape(path);
    AboveParts(dest, rooted, stack, ups);
  }

  lemma AboveParts(dest: Bytes, rooted: bool, stack: seq<Bytes>, ups: nat)
    requires Normal(rooted, stack, ups) && dest != [] && Rooted(dest) == rooted
    requires Split(dest) <= (if rooted then [[]] else []) + stack
    ensures Clean(dest) == dest && dest != [SLASH] && dest != ONE_DOT
  {
    hide Join, Split, PushAll, StackOf;
    JoinSplit(dest);
    SolidStack(rooted, stack, ups);
    EmptyPart();
    var parts := Split(dest);
    var k := if rooted then |parts| - 1 else |parts|;
    var above := stack[..k];
    assert parts == (if rooted then [[]] else []) + above;
    assert above != [] by {
      assert above == [] && rooted ==> parts == [[]];
    }
    if rooted {
      JoinAppend([[]], above);
    } else {
      assert parts == above;
    }
    assert dest == Render(rooted, above);
    StackOfRender(rooted, above, if ups < k then ups else k);
    JoinFirst(above);
    SplitOne(ONE_DOT);
  }

  lemma EmptyPart()
    ensures Join([[]]) == []
  {
  }

  /** Joining any directory with an absolute clean path appends the components to its stack. */
  lemma JoinStack(dest: Bytes, parts: seq<Bytes>)
    requires dest != [] && Normal(true, parts, 0)
    ensures var joined := dest + [SLASH] + ([SLASH] + Join(parts));
            Rooted(joined) == Rooted(dest) && StackOf(joined) == StackOf(dest) + parts
  {
    hide Join, Split, PushAll, Normal;
    var rest := [SLASH] + Join(parts);
    SplitAtSlash(dest, rest);
    PushAllConcat(Rooted(dest), [], Split(dest), Split(rest));
    PushRest(Rooted(dest), StackOf(dest), parts);
  }

  /** The names that a destination takes: all that do not step up, except that the root and the dot
      take only names without a real component, and a destination that is not clean takes none. */
  predicate Takes(dest: Bytes, parts: seq<Bytes>) {
    dest == [] || (Clean(dest) == dest && (dest == [SLASH] || dest == ONE_DOT ==> parts == []))
  }

  /** Where a name ends up. */
  function Target(dest: Bytes, parts: seq<Bytes>): Bytes {
    if dest == [] then [SLASH] + Join(parts) else Below(dest, parts)
  }

  /** The join stays at or below the destination exactly for the names it takes. */
  lemma JoinTakes(dest: Bytes, parts: seq<Bytes>)
    requires Normal(true, parts, 0)
    ensures var t := JoinTwo(dest, [SLASH] + Join(parts));
            && (t == dest || dest + [SLASH] <= t <==> Takes(dest, parts))
            && (Takes(dest, parts) ==> t == Target(dest, parts))
  {
    hide Join, Clean, Normal;
    var abs := [SLASH] + Join(parts);
    var t := JoinTwo(dest, abs);
    if dest == [] {
      CleanAbsolute(parts);
      assert dest + [SLASH] == [SLASH];
    } else if Clean(dest) == dest && dest != [SLASH] && dest != ONE_DOT {
      JoinBelow(dest, parts);
      assert parts != [] ==> dest + [SLASH] <= t;
    } else {
      if dest + [SLASH] <= t {
        AboveClean(dest, dest + [SLASH] + abs);
      }
      if t == dest {
        CleanTwice(dest + [SLASH] + abs);
      }
      SmallJoin(dest, parts);
    }
  }

  lemma CleanAbsolute(parts: seq<Bytes>)
    requires Normal(true, parts, 0)
    ensures Clean([SLASH] + Join(parts)) == [SLASH] + Join(parts)
  {
    hide Join, Split, PushAll;
    StackOfRender(true, parts, 0);
  }

  /** The root and the dot stay what they are exactly without components. */
  lemma SmallJoin(dest: Bytes, parts: seq<Bytes>)
    requires Normal(true, parts, 0)
    ensures dest == [SLASH] || dest == ONE_DOT ==>
              (JoinTwo(dest, [SLASH] + Join(parts)) == dest <==> parts == [])
  {
    hide Join, Split, PushAll;
    if dest == [SLASH] || dest == ONE_DOT {
      JoinStack(dest, parts);
      SmallStacks();
      assert [] + parts == parts;
      JoinNone();
      if parts != [] {
        JoinFirst(parts);
        StackOfRender(false, parts, 0);
        assert StackOf(Join(parts)) == parts;
      }
    }
  }

  lemma SmallStacks()
    ensures StackOf([SLASH]) == [] && StackOf(ONE_DOT) == []
  {
    hide Split;
    var p: Bytes := [SLASH];
    assert p[1..] == [];
    SkipSlash(true, [], p);
    SplitEnd(true, []);
    SplitOne(ONE_DOT);
    assert PushAll(false, [], [ONE_DOT]) == PushAll(false, [], [ONE_DOT][1..]);
  }

  /** `safe_join`: a name is refused exactly if it has a step up or the destination does not take it,
      and otherwise mapped to its normal form below the destination. What is returned is always the
      destination or a path below it. */
  method SafeJoin(dest: Bytes, name: Bytes) returns (r: Option<Bytes>)
    ensures r.Some? <==> TWO_DOTS !in Split(name) && Takes(dest, RealParts(Split(name)))
    ensures r.Some? ==> r.value == Target(dest, RealParts(Split(name)))
    ensures r.Some? ==> r.value == dest || dest + [SLASH] <= r.value
  {
    hide Join, Clean, JoinTwo, Normal, Takes, Target;
    var parts := Split(name);
    for i := 0 to |parts|
      invariant TWO_DOTS !in parts[..i]
    {
      if parts[i] == TWO_DOTS {
        return None;
      }
    }
    assert parts[..|parts|] == parts;
    var clean := CleanPath([SLASH] + name);
    var target := JoinTwoPaths(dest, clean);
    AbsoluteName(name);
    JoinTakes(dest, RealParts(parts));
    if target != dest && !(dest + [SLASH] <= target) {
      return None;
    }
    return Some(target);
  }
}
