/**
  The native stack below the interpreter's stacks: one segment in which return addresses,
  saved frame pointers and local cells are interleaved.
*/
module NativeStack {
  import opened Word64
  import opened Ir
  import opened Nasm

  /** What a cell of the exec or data stack holds natively: the interpreter's number, or the
      address of the stack word with this index. */
  datatype Tag = Number | Pointer(word: int)

  datatype Stacks = Stacks(fp: seq<int>, ipStack: seq<int>, funcs: seq<string>, data: seq<int>, tags: seq<Tag>)

  /** How many frames were open when cell `a` was allocated. */
  function Frames(fp: seq<int>, a: int): nat
    decreases |fp|
  {
    if fp == [] then 0 else if fp[|fp| - 1] <= a then |fp| else Frames(fp[..|fp| - 1], a)
  }

  /** Below a cell lie the cells before it and two words per open frame. */
  function CellWord(fp: seq<int>, a: int): int {
    a + 2 * Frames(fp, a)
  }

  function ReturnWord(s: Stacks, j: nat): int {
    (if j < |s.fp| then s.fp[j] else |s.data|) + 2 * j
  }

  function SavedWord(s: Stacks, j: nat): int
    requires j < |s.fp|
  {
    s.fp[j] + 2 * j + 1
  }

  function Height(s: Stacks): nat {
    |s.data| + |s.fp| + |s.ipStack| + 1
  }

  function StackAddr(l: Layout, q: int): int {
    l.stackTop - 8 * (q + 1)
  }

  function FramePointer(l: Layout, fp: seq<int>): int {
    if fp == [] then l.rbp0 else StackAddr(l, fp[|fp| - 1] + 2 * |fp| - 1)
  }

  function At(seg: seq<Word>, i: int): Word {
    if 0 <= i < |seg| then seg[i] else Startup
  }

  predicate WordOk(l: Layout, tag: Tag, v: int, w: Word) {
    match tag
    case Number => w == Int(v) && -TWO_63 <= v < TWO_63
    case Pointer(q) => w == Int(StackAddr(l, q))
  }

  predicate Shape(s: Stacks) {
    && |s.funcs| == |s.ipStack| + 1 && |s.tags| == |s.data|
    && |s.ipStack| <= |s.fp| <= |s.ipStack| + 1
    && (if s.fp == [] then s.data == [] else s.fp[0] == 0)
    && (forall i, j :: 0 <= i <= j < |s.fp| ==> s.fp[i] <= s.fp[j])
    && (forall j :: 0 <= j < |s.fp| ==> 0 <= s.fp[j] <= |s.data|)
  }

  function ReturnTo(s: Stacks, j: nat): Word
    requires j <= |s.ipStack| <= |s.funcs|
  {
    if j == 0 then Startup else Return(s.funcs[j - 1], s.ipStack[j - 1])
  }

  ghost predicate ReturnsOk(s: Stacks, seg: seq<Word>)
    requires Shape(s)
  {
    forall j :: 0 <= j <= |s.ipStack| ==> At(seg, ReturnWord(s, j)) == ReturnTo(s, j)
  }

  ghost predicate SavedOk(l: Layout, s: Stacks, seg: seq<Word>)
    requires Shape(s)
  {
    forall j :: 0 <= j < |s.fp| ==> At(seg, SavedWord(s, j)) == Int(FramePointer(l, s.fp[..j]))
  }

  ghost predicate CellsOk(l: Layout, s: Stacks, seg: seq<Word>)
    requires Shape(s)
  {
    forall a :: 0 <= a < |s.data| ==> WordOk(l, s.tags[a], s.data[a], At(seg, CellWord(s.fp, a)))
  }

  ghost predicate StackOk(l: Layout, s: Stacks, seg: seq<Word>) {
    Shape(s) && Height(s) <= |seg| && ReturnsOk(s, seg) && SavedOk(l, s, seg) && CellsOk(l, s, seg)
  }

  predicate Monotone(fp: seq<int>) {
    forall i, j :: 0 <= i <= j < |fp| ==> fp[i] <= fp[j]
  }

  /** The frames below a cell are those that start at or before it. */
  lemma {:induction false} FramesSplit(fp: seq<int>, a: int)
    requires Monotone(fp)
    ensures Frames(fp, a) <= |fp|
    ensures forall j :: 0 <= j < |fp| ==> (fp[j] <= a <==> j < Frames(fp, a))
    decreases |fp|
  {
    if fp != [] && fp[|fp| - 1] > a {
      FramesSplit(fp[..|fp| - 1], a);
      assert forall j :: 0 <= j < |fp| - 1 ==> fp[..|fp| - 1][j] == fp[j];
    }
  }

  /** Cells, saved frame pointers and return addresses never share a word. */
  lemma WordsApart(s: Stacks, a: int)
    requires Shape(s) && 0 <= a < |s.data|
    ensures 0 < CellWord(s.fp, a) < Height(s)
    ensures forall b :: 0 <= b < |s.data| && b != a ==> CellWord(s.fp, b) != CellWord(s.fp, a)
    ensures forall j :: 0 <= j < |s.fp| ==> SavedWord(s, j) != CellWord(s.fp, a)
    ensures forall j :: 0 <= j <= |s.ipStack| ==> ReturnWord(s, j) != CellWord(s.fp, a)
  {
    FramesSplit(s.fp, a);
    assert s.fp[0] <= a;
    forall b | 0 <= b < |s.data| && b != a
      ensures CellWord(s.fp, b) != CellWord(s.fp, a)
    {
      FramesSplit(s.fp, b);
      var ka, kb := Frames(s.fp, a), Frames(s.fp, b);
      assert kb < ka ==> s.fp[kb] <= a;
      assert ka < kb ==> s.fp[ka] <= b;
    }
  }

  lemma LowerWords(s: Stacks)
    requires Shape(s)
    ensures forall j :: 0 <= j < |s.fp| ==> 0 <= SavedWord(s, j) < Height(s)
    ensures forall j :: 0 <= j <= |s.ipStack| ==> 0 <= ReturnWord(s, j) < Height(s)
    ensures forall a :: 0 <= a < |s.data| ==> 0 <= CellWord(s.fp, a) < Height(s)
  {
    forall a | 0 <= a < |s.data|
      ensures 0 <= CellWord(s.fp, a) < Height(s)
    {
      WordsApart(s, a);
    }
  }

  // ----- what the opcodes do to the stacks -----

  function FramePushed(s: Stacks): Stacks {
    s.(fp := s.fp + [|s.data|])
  }

  function Cut(s: Stacks, size: nat): Stacks
    requires size <= |s.data| && |s.tags| == |s.data|
  {
    s.(data := s.data[..size], tags := s.tags[..size])
  }

  function Grown(s: Stacks): Stacks {
    s.(data := s.data + [0], tags := s.tags + [Number])
  }

  function Stored(s: Stacks, a: nat, v: int, tag: Tag): Stacks
    requires a < |s.data| == |s.tags|
  {
    s.(data := s.data[a := v], tags := s.tags[a := tag])
  }

  function Entered(s: Stacks, f: string, ip: int): Stacks {
    s.(funcs := s.funcs + [f], ipStack := s.ipStack + [ip])
  }

  function Left(s: Stacks): Stacks {
    s.(funcs := Rest(s.funcs), ipStack := Rest(s.ipStack))
  }

  predicate Framed(s: Stacks) {
    |s.fp| == |s.ipStack| + 1
  }

  lemma FramePushedOk(l: Layout, s: Stacks, seg: seq<Word>)
    requires StackOk(l, s, seg) && !Framed(s) && Height(s) < |seg|
    ensures StackOk(l, FramePushed(s), seg[Height(s) := Int(FramePointer(l, s.fp))])
    ensures Height(FramePushed(s)) == Height(s) + 1 && Framed(FramePushed(s))
    ensures FramePointer(l, FramePushed(s).fp) == StackAddr(l, Height(s))
  {
    var s', seg' := FramePushed(s), seg[Height(s) := Int(FramePointer(l, s.fp))];
    LowerWords(s);
    assert s'.fp[..|s.fp|] == s.fp;
    forall a | 0 <= a < |s.data|
      ensures CellWord(s'.fp, a) == CellWord(s.fp, a)
    {
    }
    forall j | 0 <= j < |s'.fp|
      ensures At(seg', SavedWord(s', j)) == Int(FramePointer(l, s'.fp[..j]))
    {
      if j < |s.fp| {
        assert s'.fp[..j] == s.fp[..j];
        assert SavedWord(s', j) == SavedWord(s, j);
      }
    }
    forall j | 0 <= j <= |s'.ipStack|
      ensures At(seg', ReturnWord(s', j)) == ReturnTo(s', j)
    {
      assert ReturnWord(s', j) == ReturnWord(s, j);
    }
  }

  /** `mov rsp, rbp` and `pop rbp` undo the frame whatever was allocated in it. */
  lemma FramePoppedOk(l: Layout, s: Stacks, seg: seq<Word>)
    requires StackOk(l, s, seg) && Framed(s)
    ensures var base := s.fp[|s.fp| - 1];
            var s' := Cut(s, base).(fp := Rest(s.fp));
            && StackOk(l, s', seg) && !Framed(s')
            && FramePointer(l, s.fp) == StackAddr(l, Height(s'))
            && Height(s') < |seg| && seg[Height(s')] == Int(FramePointer(l, s'.fp))
  {
    var base := s.fp[|s.fp| - 1];
    var s' := Cut(s, base).(fp := Rest(s.fp));
    LowerWords(s);
    var top := |s.fp| - 1;
    assert SavedWord(s, top) == Height(s');
    forall j | 0 <= j < |s'.fp|
      ensures At(seg, SavedWord(s', j)) == Int(FramePointer(l, s'.fp[..j]))
    {
      assert s'.fp[..j] == s.fp[..j];
      assert SavedWord(s', j) == SavedWord(s, j);
    }
    forall j | 0 <= j <= |s'.ipStack|
      ensures At(seg, ReturnWord(s', j)) == ReturnTo(s', j)
    {
      assert ReturnWord(s', j) == ReturnWord(s, j);
    }
    forall a | 0 <= a < |s'.data|
      ensures CellWord(s'.fp, a) == CellWord(s.fp, a)
    {
    }
  }

  lemma CutOk(l: Layout, s: Stacks, seg: seq<Word>, size: nat)
    requires StackOk(l, s, seg) && Framed(s) && s.fp[|s.fp| - 1] <= size <= |s.data|
    ensures StackOk(l, Cut(s, size), seg)
    ensures Height(Cut(s, size)) == Height(s) - (|s.data| - size)
  {
    var s' := Cut(s, size);
    forall j | 0 <= j <= |s'.ipStack|
      ensures At(seg, ReturnWord(s', j)) == ReturnTo(s', j)
    {
      assert ReturnWord(s', j) == ReturnWord(s, j);
    }
    forall j | 0 <= j < |s'.fp|
      ensures At(seg, SavedWord(s', j)) == Int(FramePointer(l, s'.fp[..j]))
    {
      assert SavedWord(s', j) == SavedWord(s, j);
    }
  }

  lemma GrownOk(l: Layout, s: Stacks, seg: seq<Word>)
    requires StackOk(l, s, seg) && Framed(s) && Height(s) < |seg|
    ensures StackOk(l, Grown(s), seg[Height(s) := Int(0)])
    ensures Height(Grown(s)) == Height(s) + 1 && CellWord(s.fp, |s.data|) == Height(s)
  {
    var s', seg' := Grown(s), seg[Height(s) := Int(0)];
    LowerWords(s);
    forall j | 0 <= j <= |s'.ipStack|
      ensures At(seg', ReturnWord(s', j)) == ReturnTo(s', j)
    {
      assert ReturnWord(s', j) == ReturnWord(s, j);
    }
    forall j | 0 <= j < |s'.fp|
      ensures At(seg', SavedWord(s', j)) == Int(FramePointer(l, s'.fp[..j]))
    {
      assert SavedWord(s', j) == SavedWord(s, j);
    }
    forall a | 0 <= a < |s'.data|
      ensures WordOk(l, s'.tags[a], s'.data[a], At(seg', CellWord(s'.fp, a)))
    {
      assert a < |s.data| ==> 0 <= CellWord(s.fp, a) < Height(s);
    }
  }

  /** Writing one cell leaves every return address, frame pointer and other cell alone. */
  lemma StoredOk(l: Layout, s: Stacks, seg: seq<Word>, a: nat, v: int, tag: Tag, w: Word)
    requires StackOk(l, s, seg) && a < |s.data| && WordOk(l, tag, v, w)
    ensures 0 <= CellWord(s.fp, a) < |seg|
    ensures StackOk(l, Stored(s, a, v, tag), seg[CellWord(s.fp, a) := w])
  {
    WordsApart(s, a);
    LowerWords(s);
    var s', seg' := Stored(s, a, v, tag), seg[CellWord(s.fp, a) := w];
    forall j | 0 <= j <= |s'.ipStack|
      ensures At(seg', ReturnWord(s', j)) == ReturnTo(s', j)
    {
      assert ReturnWord(s', j) == ReturnWord(s, j);
    }
    forall j | 0 <= j < |s'.fp|
      ensures At(seg', SavedWord(s', j)) == Int(FramePointer(l, s'.fp[..j]))
    {
      assert SavedWord(s', j) == SavedWord(s, j);
    }
    forall b | 0 <= b < |s'.data|
      ensures WordOk(l, s'.tags[b], s'.data[b], At(seg', CellWord(s'.fp, b)))
    {
      assert b != a ==> CellWord(s.fp, b) != CellWord(s.fp, a);
    }
  }

  lemma EnteredOk(l: Layout, s: Stacks, seg: seq<Word>, f: string, ip: int)
    requires StackOk(l, s, seg) && Framed(s) && Height(s) < |seg|
    ensures var s' := Entered(s, f, ip);
            && StackOk(l, s', seg[Height(s) := Return(s.funcs[|s.funcs| - 1], ip)])
            && !Framed(s') && Height(s') == Height(s) + 1
  {
    var s', seg' := Entered(s, f, ip), seg[Height(s) := Return(s.funcs[|s.funcs| - 1], ip)];
    LowerWords(s);
    forall j | 0 <= j <= |s'.ipStack|
      ensures At(seg', ReturnWord(s', j)) == ReturnTo(s', j)
    {
      assert ReturnWord(s', j) == ReturnWord(s, j);
    }
    forall j | 0 <= j < |s'.fp|
      ensures At(seg', SavedWord(s', j)) == Int(FramePointer(l, s'.fp[..j]))
    {
      assert SavedWord(s', j) == SavedWord(s, j);
    }
  }

  /** `ret` finds the return address of the call on top of the native stack. */
  lemma LeftOk(l: Layout, s: Stacks, seg: seq<Word>)
    requires StackOk(l, s, seg) && !Framed(s)
    ensures |s.funcs| == |s.ipStack| + 1 && seg[Height(s) - 1] == ReturnTo(s, |s.ipStack|)
    ensures s.ipStack != [] ==> StackOk(l, Left(s), seg) && Framed(Left(s)) && Height(Left(s)) == Height(s) - 1
  {
    var d := |s.ipStack|;
    assert ReturnWord(s, d) == Height(s) - 1;
    if d > 0 {
      var s' := Left(s);
      forall j | 0 <= j <= |s'.ipStack|
        ensures At(seg, ReturnWord(s', j)) == ReturnTo(s', j)
      {
        assert ReturnWord(s', j) == ReturnWord(s, j);
      }
      forall j | 0 <= j < |s'.fp|
        ensures At(seg, SavedWord(s', j)) == Int(FramePointer(l, s'.fp[..j]))
      {
        assert SavedWord(s', j) == SavedWord(s, j);
      }
    }
  }
}
