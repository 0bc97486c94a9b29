/** The process stack as section 3.4.1 of the System V AMD64 psABI lays it out, from the reader's
    side: words, strings and the vectors at the initial stack pointer. */
module StackLayout {
  import opened Prelude
  import opened UserMemory

  // ---------------------------------------------------------------- words

  /** The `n` low bytes of `v`, least significant first. */
  function ToBytes(v: nat, n: nat): (b: seq<Byte>)
    ensures |b| == n
  {
    if n == 0 then [] else [v % 256] + ToBytes(v / 256, n - 1)
  }

  function FromBytes(b: seq<Byte>): nat {
    if b == [] then 0 else b[0] + 256 * FromBytes(b[1..])
  }

  function Bound(n: nat): nat {
    if n == 0 then 1 else 256 * Bound(n - 1)
  }

  lemma {:induction false} BytesRoundTrip(v: nat, n: nat)
    requires v < Bound(n)
    ensures FromBytes(ToBytes(v, n)) == v
  {
    if n > 0 {
      BytesRoundTrip(v / 256, n - 1);
      assert ToBytes(v, n)[1..] == ToBytes(v / 256, n - 1);
    }
  }

  lemma WordRoundTrip(v: nat)
    requires v <= U64_MAX
    ensures FromBytes(ToBytes(v, 8)) == v
  {
    assert Bound(4) == 0x1_0000_0000;
    assert Bound(8) == 256 * (256 * (256 * (256 * Bound(4))));
    BytesRoundTrip(v, 8);
  }

  // ---------------------------------------------------------------- memory

  /** The memory from address `base` on holds `bytes` at address `a`. */
  predicate Holds(mem: seq<Byte>, base: nat, a: nat, bytes: seq<Byte>) {
    base <= a && a + |bytes| <= base + |mem| && mem[a - base..a - base + |bytes|] == bytes
  }

  /** Nothing at or above `cursor` differs. */
  predicate SameAbove(mem: seq<Byte>, mem': seq<Byte>, base: nat, cursor: nat) {
    base <= cursor <= base + |mem| && |mem'| == |mem| && mem'[cursor - base..] == mem[cursor - base..]
  }

  lemma StillHolds(mem: seq<Byte>, mem': seq<Byte>, base: nat, cursor: nat, a: nat, bytes: seq<Byte>)
    requires Holds(mem, base, a, bytes) && SameAbove(mem, mem', base, cursor) && cursor <= a
    ensures Holds(mem', base, a, bytes)
  {
    var k := a - cursor;
    assert mem[a - base..a - base + |bytes|] == mem[cursor - base..][k..k + |bytes|];
    assert mem'[a - base..a - base + |bytes|] == mem'[cursor - base..][k..k + |bytes|];
  }

  predicate WordAt(mem: seq<Byte>, base: nat, a: nat, w: nat) {
    w <= U64_MAX && Holds(mem, base, a, ToBytes(w, 8))
  }

  /** The words `ws` stand one after the other from address `a` on. */
  predicate WordsAt(mem: seq<Byte>, base: nat, a: nat, ws: seq<nat>)
    decreases |ws|
  {
    ws == [] || (WordAt(mem, base, a, ws[0]) && WordsAt(mem, base, a + 8, ws[1..]))
  }

  lemma {:induction false} StillWords(mem: seq<Byte>, mem': seq<Byte>, base: nat, cursor: nat, a: nat, ws: seq<nat>)
    requires WordsAt(mem, base, a, ws) && SameAbove(mem, mem', base, cursor) && cursor <= a
    ensures WordsAt(mem', base, a, ws)
    decreases |ws|
  {
    if ws != [] {
      StillHolds(mem, mem', base, cursor, a, ToBytes(ws[0], 8));
      StillWords(mem, mem', base, cursor, a + 8, ws[1..]);
    }
  }

  lemma {:induction false} WordsSplit(mem: seq<Byte>, base: nat, a: nat, xs: seq<nat>, ys: seq<nat>)
    requires WordsAt(mem, base, a, xs + ys)
    ensures WordsAt(mem, base, a, xs) && WordsAt(mem, base, a + 8 * |xs|, ys)
    decreases |xs|
  {
    if xs == [] {
      assert xs + ys == ys;
    } else {
      assert (xs + ys)[1..] == xs[1..] + ys;
      WordsSplit(mem, base, a + 8, xs[1..], ys);
    }
  }

  /** The NUL-terminated string `s` stands at address `a`. */
  predicate StringAt(mem: seq<Byte>, base: nat, a: nat, s: seq<Byte>) {
    Holds(mem, base, a, s + [0])
  }

  /** The strings end to end, each with its NUL. */
  function Packed(strings: seq<seq<Byte>>): seq<Byte> {
    if strings == [] then [] else (strings[0] + [0]) + Packed(strings[1..])
  }

  predicate NulFree(s: seq<Byte>) {
    forall i :: 0 <= i < |s| ==> s[i] != 0
  }

  /** The part of a string that a program sees: up to the first NUL. */
  function UpToNul(s: seq<Byte>): seq<Byte> {
    if s == [] || s[0] == 0 then [] else [s[0]] + UpToNul(s[1..])
  }

  function AllUpToNul(strings: seq<seq<Byte>>): seq<seq<Byte>> {
    if strings == [] then [] else [UpToNul(strings[0])] + AllUpToNul(strings[1..])
  }

  /** A string without NUL is seen whole. */
  lemma {:induction false} NulFreeIsWhole(s: seq<Byte>)
    ensures UpToNul(s) == s <==> NulFree(s)
  {
    if s != [] && s[0] != 0 {
      NulFreeIsWhole(s[1..]);
      assert s == [s[0]] + s[1..];
      assert NulFree(s) <==> NulFree(s[1..]) by {
        if NulFree(s[1..]) {
          assert forall i :: 0 < i < |s| ==> s[i] == s[1..][i - 1];
        }
      }
    }
  }

  lemma {:induction false} AllNulFreeAreWhole(strings: seq<seq<Byte>>)
    requires forall i :: 0 <= i < |strings| ==> NulFree(strings[i])
    ensures AllUpToNul(strings) == strings
  {
    if strings != [] {
      NulFreeIsWhole(strings[0]);
      AllNulFreeAreWhole(strings[1..]);
    }
  }

  predicate StringsAt(mem: seq<Byte>, base: nat, ptrs: seq<nat>, strings: seq<seq<Byte>>) {
    |ptrs| == |strings| && forall i :: 0 <= i < |ptrs| ==> StringAt(mem, base, ptrs[i], strings[i])
  }

  // ---------------------------------------------------------------- the reader

  function ReadWord(mem: seq<Byte>, base: nat, a: nat): Option<nat> {
    if base <= a && a + 8 <= base + |mem| then Some(FromBytes(mem[a - base..a - base + 8])) else None
  }

  function ReadWords(mem: seq<Byte>, base: nat, a: nat, n: nat): Option<seq<nat>>
    decreases n
  {
    if n == 0 then Some([])
    else
      var w, rest := ReadWord(mem, base, a), ReadWords(mem, base, a + 8, n - 1);
      if w.None? || rest.None? then None else Some([w.value] + rest.value)
  }

  /** The words up to the first null word. */
  function ReadUntilNull(mem: seq<Byte>, base: nat, a: nat): Option<seq<nat>>
    decreases base + |mem| - a
  {
    var w := ReadWord(mem, base, a);
    if w.None? then None
    else if w.value == 0 then Some([])
    else
      var rest := ReadUntilNull(mem, base, a + 8);
      if rest.None? then None else Some([w.value] + rest.value)
  }

  /** The auxiliary vector: pairs of a type and a value, up to the type `AT_NULL`. */
  function ReadAux(mem: seq<Byte>, base: nat, a: nat): Option<seq<(nat, nat)>>
    decreases base + |mem| - a
  {
    var key, value := ReadWord(mem, base, a), ReadWord(mem, base, a + 8);
    if key.None? then None
    else if key.value == 0 then Some([])
    else
      var rest := ReadAux(mem, base, a + 16);
      if value.None? || rest.None? then None else Some([(key.value, value.value)] + rest.value)
  }

  function ReadString(mem: seq<Byte>, base: nat, a: nat): Option<seq<Byte>>
    decreases base + |mem| - a
  {
    if a < base || a >= base + |mem| then None
    else if mem[a - base] == 0 then Some([])
    else
      var rest := ReadString(mem, base, a + 1);
      if rest.None? then None else Some([mem[a - base]] + rest.value)
  }

  function ReadStrings(mem: seq<Byte>, base: nat, ptrs: seq<nat>): Option<seq<seq<Byte>>>
    decreases |ptrs|
  {
    if ptrs == [] then Some([])
    else
      var s, rest := ReadString(mem, base, ptrs[0]), ReadStrings(mem, base, ptrs[1..]);
      if s.None? || rest.None? then None else Some([s.value] + rest.value)
  }

  datatype StackView = StackView(argc: nat, argv: seq<seq<Byte>>, envp: seq<seq<Byte>>, auxv: seq<(nat, nat)>)

  /** What a program finds at its initial stack pointer: the argument count, that many argument
      pointers and a null word, environment pointers up to a null word, and the auxiliary vector. */
  function ReadStack(mem: seq<Byte>, base: nat, sp: nat): Option<StackView> {
    var argc := ReadWord(mem, base, sp);
    if argc.None? then None
    else
      var args := ReadWords(mem, base, sp + 8, argc.value);
      var envAt := sp + 8 + 8 * argc.value + 8;
      var envs := ReadUntilNull(mem, base, envAt);
      if args.None? || envs.None? || ReadWord(mem, base, envAt - 8) != Some(0) then None
      else
        var auxv := ReadAux(mem, base, envAt + 8 * |envs.value| + 8);
        var argv, envp := ReadStrings(mem, base, args.value), ReadStrings(mem, base, envs.value);
        if auxv.None? || argv.None? || envp.None? then None
        else Some(StackView(argc.value, argv.value, envp.value, auxv.value))
  }

  // ---------------------------------------------------------------- reading back

  lemma WordReads(mem: seq<Byte>, base: nat, a: nat, w: nat)
    requires WordAt(mem, base, a, w)
    ensures ReadWord(mem, base, a) == Some(w)
  {
    WordRoundTrip(w);
  }

  lemma {:induction false} WordsRead(mem: seq<Byte>, base: nat, a: nat, ws: seq<nat>)
    requires WordsAt(mem, base, a, ws)
    ensures ReadWords(mem, base, a, |ws|) == Some(ws)
    decreases |ws|
  {
    if ws != [] {
      WordReads(mem, base, a, ws[0]);
      WordsRead(mem, base, a + 8, ws[1..]);
      assert ws == [ws[0]] + ws[1..];
    }
  }

  lemma {:induction false} VectorReads(mem: seq<Byte>, base: nat, a: nat, ws: seq<nat>)
    requires WordsAt(mem, base, a, ws + [0])
    requires forall i :: 0 <= i < |ws| ==> ws[i] != 0
    ensures ReadUntilNull(mem, base, a) == Some(ws)
    decreases |ws|
  {
    WordReads(mem, base, a, (ws + [0])[0]);
    if ws != [] {
      assert (ws + [0])[1..] == ws[1..] + [0];
      VectorReads(mem, base, a + 8, ws[1..]);
      assert ws == [ws[0]] + ws[1..];
    }
  }

  function Flatten(aux: seq<(nat, nat)>): seq<nat> {
    if aux == [] then [] else [aux[0].0, aux[0].1] + Flatten(aux[1..])
  }

  lemma {:induction false} AuxReads(mem: seq<Byte>, base: nat, a: nat, aux: seq<(nat, nat)>)
    requires WordsAt(mem, base, a, Flatten(aux) + [0])
    requires forall i :: 0 <= i < |aux| ==> aux[i].0 != 0
    ensures ReadAux(mem, base, a) == Some(aux)
    decreases |aux|
  {
    var ws := Flatten(aux) + [0];
    WordReads(mem, base, a, ws[0]);
    if aux != [] {
      assert ws[1..][0] == aux[0].1;
      WordReads(mem, base, a + 8, aux[0].1);
      assert ws[1..][1..] == Flatten(aux[1..]) + [0];
      AuxReads(mem, base, a + 16, aux[1..]);
      assert aux == [aux[0]] + aux[1..];
    }
  }

  lemma {:induction false} StringReads(mem: seq<Byte>, base: nat, a: nat, s: seq<Byte>)
    requires StringAt(mem, base, a, s)
    ensures ReadString(mem, base, a) == Some(UpToNul(s))
    decreases |s|
  {
    var t := mem[a - base..a - base + |s| + 1];
    assert t == s + [0];
    assert mem[a - base] == t[0];
    if s != [] && s[0] != 0 {
      assert mem[a + 1 - base..a + 1 - base + |s|] == t[1..] == s[1..] + [0];
      StringReads(mem, base, a + 1, s[1..]);
    }
  }

  lemma {:induction false} StringsRead(mem: seq<Byte>, base: nat, ptrs: seq<nat>, strings: seq<seq<Byte>>)
    requires StringsAt(mem, base, ptrs, strings)
    ensures ReadStrings(mem, base, ptrs) == Some(AllUpToNul(strings))
    decreases |ptrs|
  {
    if ptrs != [] {
      StringReads(mem, base, ptrs[0], strings[0]);
      StringsRead(mem, base, ptrs[1..], strings[1..]);
    }
  }

  /** The words a stack starts with. */
  function Layout(args: seq<nat>, envs: seq<nat>, aux: seq<(nat, nat)>, pad: seq<nat>): seq<nat> {
    [|args|] + (args + ([0] + ((envs + [0]) + ((Flatten(aux) + [0]) + pad))))
  }

  /** A stack that is laid out this way reads as what went into it, each string up to its first NUL. */
  lemma LayoutReads(mem: seq<Byte>, base: nat, sp: nat, args: seq<nat>, envs: seq<nat>, aux: seq<(nat, nat)>,
                    pad: seq<nat>, argv: seq<seq<Byte>>, envp: seq<seq<Byte>>)
    requires WordsAt(mem, base, sp, Layout(args, envs, aux, pad))
    requires forall i :: 0 <= i < |envs| ==> envs[i] != 0
    requires forall i :: 0 <= i < |aux| ==> aux[i].0 != 0
    requires StringsAt(mem, base, args, argv) && StringsAt(mem, base, envs, envp)
    ensures ReadStack(mem, base, sp) == Some(StackView(|argv|, AllUpToNul(argv), AllUpToNul(envp), aux))
  {
    hide WordsAt, ReadWords, ReadUntilNull, ReadAux, ReadStrings, Flatten, StringsAt, AllUpToNul;
    var tail := (Flatten(aux) + [0]) + pad;
    WordsSplit(mem, base, sp, [|args|], args + ([0] + ((envs + [0]) + tail)));
    OneWord(mem, base, sp, |args|);
    WordsSplit(mem, base, sp + 8, args, [0] + ((envs + [0]) + tail));
    WordsRead(mem, base, sp + 8, args);
    var envAt := sp + 8 + 8 * |args| + 8;
    WordsSplit(mem, base, envAt - 8, [0], (envs + [0]) + tail);
    OneWord(mem, base, envAt - 8, 0);
    WordsSplit(mem, base, envAt, envs + [0], tail);
    VectorReads(mem, base, envAt, envs);
    WordsSplit(mem, base, envAt + 8 * |envs| + 8, Flatten(aux) + [0], pad);
    AuxReads(mem, base, envAt + 8 * |envs| + 8, aux);
    StringsRead(mem, base, args, argv);
    StringsRead(mem, base, envs, envp);
    SameCount(mem, base, args, argv);
  }

  lemma OneWord(mem: seq<Byte>, base: nat, a: nat, w: nat)
    requires WordsAt(mem, base, a, [w])
    ensures ReadWord(mem, base, a) == Some(w)
  {
    WordReads(mem, base, a, w);
  }

  lemma SameCount(mem: seq<Byte>, base: nat, ptrs: seq<nat>, strings: seq<seq<Byte>>)
    requires StringsAt(mem, base, ptrs, strings)
    ensures |ptrs| == |strings|
  {
  }
}
