/** Builds the initial stack of a process. */
module StackBuilder {
  import opened Prelude
  import opened UserMemory
  import opened StackLayout

  datatype StackError = AddressOverflow | StackOverflow

  datatype AuxVector = AuxVector(
    phdr: nat, phent: nat, phnum: nat, base: nat, entry: nat, uid: nat, euid: nat, gid: nat, egid: nat,
    clockTick: nat, pageSize: nat, flags: nat, secure: nat, hwcap: nat, hwcap2: nat, sysinfoEhdr: nat, minsigstksz: nat)

  datatype StackInfo = StackInfo(stackPointer: nat, argStart: nat, argEnd: nat, envStart: nat, envEnd: nat,
                                 execfnPtr: nat, randomPtr: nat)

  const AT_PHDR := 3
  const AT_PHENT := 4
  const AT_PHNUM := 5
  const AT_PAGESZ := 6
  const AT_BASE := 7
  const AT_FLAGS := 8
  const AT_ENTRY := 9
  const AT_UID := 11
  const AT_EUID := 12
  const AT_GID := 13
  const AT_EGID := 14
  const AT_PLATFORM := 15
  const AT_HWCAP := 16
  const AT_CLKTCK := 17
  const AT_SECURE := 23
  const AT_BASE_PLATFORM := 24
  const AT_RANDOM := 25
  const AT_HWCAP2 := 26
  const AT_EXECFN := 31
  const AT_SYSINFO_EHDR := 33
  const AT_MINSIGSTKSZ := 51

  /** The entries in the order in which they are pushed, which is last one first. */
  function AuxEntries(execfn: nat, random: nat, platform: nat, v: AuxVector): seq<(nat, nat)> {
    [ (AT_EXECFN, execfn), (AT_RANDOM, random), (AT_BASE_PLATFORM, 0), (AT_EGID, v.egid), (AT_GID, v.gid),
      (AT_EUID, v.euid), (AT_UID, v.uid), (AT_ENTRY, v.entry), (AT_MINSIGSTKSZ, v.minsigstksz), (AT_FLAGS, v.flags),
      (AT_HWCAP, v.hwcap), (AT_HWCAP2, v.hwcap2), (AT_PLATFORM, platform), (AT_SECURE, v.secure), (AT_PHNUM, v.phnum),
      (AT_PHENT, v.phent), (AT_PHDR, v.phdr), (AT_PAGESZ, v.pageSize), (AT_CLKTCK, v.clockTick), (AT_BASE, v.base),
      (AT_SYSINFO_EHDR, v.sysinfoEhdr) ]
  }

  predicate AuxOk(v: AuxVector) {
    && v.phdr <= U64_MAX && v.phent <= U64_MAX && v.phnum <= U64_MAX && v.base <= U64_MAX && v.entry <= U64_MAX
    && v.uid <= U64_MAX && v.euid <= U64_MAX && v.gid <= U64_MAX && v.egid <= U64_MAX && v.clockTick <= U64_MAX
    && v.pageSize <= U64_MAX && v.flags <= U64_MAX && v.secure <= U64_MAX && v.hwcap <= U64_MAX
    && v.hwcap2 <= U64_MAX && v.sysinfoEhdr <= U64_MAX && v.minsigstksz <= U64_MAX
  }

  function Reversed<T>(s: seq<T>): (r: seq<T>)
    ensures |r| == |s| && forall i :: 0 <= i < |s| ==> r[i] == s[|s| - 1 - i]
  {
    if s == [] then [] else [s[|s| - 1]] + Reversed(s[..|s| - 1])
  }

  function Align16(a: nat): (r: nat)
    ensures r <= a < r + 16 && r % 16 == 0
  {
    a - a % 16
  }

  /** Writes a stack downwards; `mem` is the memory from `base` up to the top of the stack. */
  class StackWriter {
    const base: nat
    var cursor: nat
    var mem: seq<Byte>

    predicate Valid()
      reads this
    {
      0 < base <= cursor <= base + |mem| <= U64_MAX
    }

    constructor (base: nat, mem: seq<Byte>)
      requires 0 < base && base + |mem| <= U64_MAX
      ensures Valid() && this.base == base && cursor == base + |mem| && this.mem == mem
    {
      this.base, this.cursor, this.mem := base, base + |mem|, mem;
    }

    method AlignDown16()
      requires Valid() && base % 16 == 0
      modifies this`cursor
      ensures Valid() && cursor == Align16(old(cursor))
    {
      cursor := Align16(cursor);
    }

    method PushRawBytes(bytes: seq<Byte>) returns (r: Result<nat, StackError>)
      requires Valid()
      modifies this
      ensures r.Err? <==> old(cursor) < base + |bytes|
      ensures r.Ok? ==> Valid() && cursor == old(cursor) - |bytes| == r.value
      ensures r.Ok? ==> Holds(mem, base, cursor, bytes) && SameAbove(old(mem), mem, base, old(cursor))
    {
      if cursor < |bytes| {
        return Err(StackError.AddressOverflow);
      }
      cursor := cursor - |bytes|;
      if cursor < base {
        return Err(StackOverflow);
      }
      var at := cursor - base;
      ghost var before := mem;
      mem := mem[..at] + bytes + mem[at + |bytes|..];
      assert mem[at..at + |bytes|] == bytes;
      assert mem[at + |bytes|..] == before[at + |bytes|..];
      r := Ok(cursor);
    }

    /** Pushes one word in front of the words `ws`. */
    method PushWord(v: nat, ghost ws: seq<nat>) returns (r: Result<nat, StackError>)
      requires Valid() && v <= U64_MAX && WordsAt(mem, base, cursor, ws)
      modifies this
      ensures r.Ok? <==> base + 8 <= old(cursor)
      ensures r.Ok? ==> Valid() && cursor == old(cursor) - 8
      ensures r.Ok? ==> WordsAt(mem, base, cursor, [v] + ws) && SameAbove(old(mem), mem, base, old(cursor))
    {
      r := PushRawBytes(ToBytes(v, 8));
      if r.Ok? {
        StillWords(old(mem), mem, base, old(cursor), old(cursor), ws);
        assert ([v] + ws)[1..] == ws;
      }
    }

    method PushCString(s: seq<Byte>) returns (r: Result<nat, StackError>)
      requires Valid()
      modifies this
      ensures r.Ok? <==> base + |s| + 1 <= old(cursor)
      ensures r.Ok? ==> Valid() && cursor == old(cursor) - |s| - 1 == r.value
      ensures r.Ok? ==> StringAt(mem, base, r.value, s) && SameAbove(old(mem), mem, base, old(cursor))
    {
      r := PushRawBytes([0]);
      if r.Err? {
        return;
      }
      ghost var mid, at := mem, cursor;
      r := PushRawBytes(s);
      if r.Ok? {
        Compose(old(mem), mid, mem, base, old(cursor), at);
        StillHolds(mid, mem, base, at, at, [0]);
        Joined(mem, base, cursor, s, [0]);
      }
    }

    /** Pushes the strings, the last one first, so that they stand end to end. */
    method PushStrings(strings: seq<seq<Byte>>) returns (r: Result<seq<nat>, StackError>, low: nat, high: nat)
      requires Valid()
      modifies this
      ensures r.Ok? <==> base + |Packed(strings)| <= old(cursor)
      ensures r.Ok? ==> Valid() && cursor <= old(cursor) && SameAbove(old(mem), mem, base, old(cursor))
      ensures r.Ok? ==> StringsAt(mem, base, r.value, strings)
      ensures r.Ok? ==> forall k :: 0 <= k < |r.value| ==> cursor <= r.value[k]
      ensures r.Ok? ==> Holds(mem, base, cursor, Packed(strings)) && cursor + |Packed(strings)| == old(cursor)
      ensures r.Ok? && strings != [] ==> low == cursor && high == old(cursor)
    {
      hide StringsAt, Holds, Packed;
      var addrs: seq<nat> := [];
      low, high := U64_MAX, 0;
      var i := |strings|;
      Unchanged(mem, base, cursor);
      NoStrings(mem, base, cursor);
      assert strings[i..] == [];
      while i > 0
        invariant 0 <= i <= |strings| && Valid() && cursor <= old(cursor) && SameAbove(old(mem), mem, base, old(cursor))
        invariant StringsAt(mem, base, addrs, strings[i..])
        invariant forall k :: 0 <= k < |addrs| ==> cursor <= addrs[k]
        invariant Holds(mem, base, cursor, Packed(strings[i..])) && cursor + |Packed(strings[i..])| == old(cursor)
        invariant i < |strings| ==> low == cursor && high == old(cursor)
        invariant i == |strings| ==> low == U64_MAX && high == 0
      {
        i := i - 1;
        ghost var before, at := mem, cursor;
        PackedSuffix(strings, i);
        var ptr := PushCString(strings[i]);
        if ptr.Err? {
          return Err(ptr.error), low, high;
        }
        MoreStrings(before, mem, base, at, ptr.value, addrs, strings[i + 1..], strings[i]);
        OneStringMore(before, mem, base, at, ptr.value, strings, i);
        Compose(old(mem), before, mem, base, old(cursor), at);
        addrs := [ptr.value] + addrs;
        low, high := Min(low, ptr.value), Max(high, ptr.value + |strings[i]| + 1);
      }
      assert strings[0..] == strings;
      r := Ok(addrs);
    }

    /** Pushes words so that they stand in order in front of the words `ws`. */
    method PushWords(vs: seq<nat>, ghost ws: seq<nat>) returns (r: Result<(), StackError>)
      requires Valid() && WordsAt(mem, base, cursor, ws) && forall i :: 0 <= i < |vs| ==> vs[i] <= U64_MAX
      modifies this
      ensures r.Ok? <==> base + 8 * |vs| <= old(cursor)
      ensures r.Ok? ==> Valid() && cursor == old(cursor) - 8 * |vs|
      ensures r.Ok? ==> WordsAt(mem, base, cursor, vs + ws) && SameAbove(old(mem), mem, base, old(cursor))
    {
      hide WordsAt;
      var i := |vs|;
      Unchanged(mem, base, cursor);
      assert vs[i..] + ws == ws;
      while i > 0
        invariant 0 <= i <= |vs| && Valid() && cursor == old(cursor) - 8 * (|vs| - i)
        invariant WordsAt(mem, base, cursor, vs[i..] + ws) && SameAbove(old(mem), mem, base, old(cursor))
      {
        i := i - 1;
        ghost var before, at := mem, cursor;
        var pushed := PushWord(vs[i], vs[i + 1..] + ws);
        if pushed.Err? {
          return Err(pushed.error);
        }
        assert [vs[i]] + (vs[i + 1..] + ws) == vs[i..] + ws;
        Compose(old(mem), before, mem, base, old(cursor), at);
      }
      assert vs[0..] == vs;
      r := Ok(());
    }

    /** Pushes the pairs one after the other, the value above the type. */
    method PushAux(aux: seq<(nat, nat)>, ghost ws: seq<nat>) returns (r: Result<(), StackError>)
      requires Valid() && WordsAt(mem, base, cursor, ws)
      requires forall i :: 0 <= i < |aux| ==> aux[i].0 <= U64_MAX && aux[i].1 <= U64_MAX
      modifies this
      ensures r.Ok? <==> base + 16 * |aux| <= old(cursor)
      ensures r.Ok? ==> Valid() && cursor == old(cursor) - 16 * |aux|
      ensures r.Ok? ==>
                WordsAt(mem, base, cursor, Flatten(Reversed(aux)) + ws) && SameAbove(old(mem), mem, base, old(cursor))
    {
      hide WordsAt, Flatten;
      var i := 0;
      Unchanged(mem, base, cursor);
      NoPairs(ws);
      assert aux[..0] == [];
      while i < |aux|
        invariant i <= |aux| && Valid() && cursor == old(cursor) - 16 * i
        invariant WordsAt(mem, base, cursor, Flatten(Reversed(aux[..i])) + ws)
                  && SameAbove(old(mem), mem, base, old(cursor))
      {
        ghost var before, at, words := mem, cursor, Flatten(Reversed(aux[..i])) + ws;
        var value := PushWord(aux[i].1, words);
        if value.Err? {
          return Err(value.error);
        }
        ghost var mid, midAt := mem, cursor;
        var key := PushWord(aux[i].0, [aux[i].1] + words);
        if key.Err? {
          return Err(key.error);
        }
        Compose(before, mid, mem, base, at, midAt);
        Compose(old(mem), before, mem, base, old(cursor), at);
        OnePairMore(aux, i, ws);
        i := i + 1;
      }
      assert aux[..i] == aux;
      r := Ok(());
    }
  }

  /** Everything below the strings: the vectors, in front of which the stack pointer ends up. */
  method PushVectors(writer: StackWriter, argAddrs: seq<nat>, envAddrs: seq<nat>, aux: seq<(nat, nat)>)
    returns (r: Result<(), StackError>, ghost pad: seq<nat>)
    requires writer.Valid() && writer.base % 16 == 0 && |argAddrs| <= U64_MAX && |aux| == 21
    requires forall i :: 0 <= i < |aux| ==> aux[i].0 <= U64_MAX && aux[i].1 <= U64_MAX
    requires forall i :: 0 <= i < |argAddrs| ==> argAddrs[i] <= U64_MAX
    requires forall i :: 0 <= i < |envAddrs| ==> envAddrs[i] <= U64_MAX
    modifies writer
    ensures r.Ok? <==> writer.base + VectorSize(|argAddrs|, |envAddrs|) <= Align16(old(writer.cursor))
    ensures r.Ok? ==>
              writer.Valid() && writer.cursor == Align16(old(writer.cursor)) - VectorSize(|argAddrs|, |envAddrs|)
    ensures r.Ok? ==> SameAbove(old(writer.mem), writer.mem, writer.base, old(writer.cursor))
    ensures r.Ok? ==> WordsAt(writer.mem, writer.base, writer.cursor, Layout(argAddrs, envAddrs, Reversed(aux), pad))
  {
    hide WordsAt, Flatten, Reversed, Align16;
    var qwords := |aux| * 2 + |argAddrs| + |envAddrs| + 3;
    writer.AlignDown16();
    ghost var top := writer.cursor;
    Unchanged(writer.mem, writer.base, old(writer.cursor));
    var filler := if qwords % 2 != 0 then [0] else [];
    NoWords(writer.mem, writer.base, writer.cursor);
    r := writer.PushWords(filler, []);
    if r.Err? {
      return r, [];
    }
    ghost var ws := filler + [];
    pad := [0] + ws;
    assert [0, 0] + ws == [0] + pad;
    r := PushOn(writer, [0, 0], ws, old(writer.mem), top);
    if r.Err? {
      return r, [];
    }
    ghost var before, at := writer.mem, writer.cursor;
    r := writer.PushAux(aux, [0] + pad);
    if r.Err? {
      return r, [];
    }
    Compose(old(writer.mem), before, writer.mem, writer.base, top, at);
    ghost var tail := (Flatten(Reversed(aux)) + [0]) + pad;
    assert Flatten(Reversed(aux)) + ([0] + pad) == tail;
    r := PushOn(writer, envAddrs + [0], tail, old(writer.mem), top);
    if r.Err? {
      return r, [];
    }
    r := PushOn(writer, [|argAddrs|] + argAddrs + [0], (envAddrs + [0]) + tail, old(writer.mem), top);
    if r.Err? {
      return r, [];
    }
    assert ([|argAddrs|] + argAddrs + [0]) + ((envAddrs + [0]) + tail) ==
             Layout(argAddrs, envAddrs, Reversed(aux), pad);
    Narrowed(old(writer.mem), writer.mem, writer.base, top, old(writer.cursor));
  }

  /** Pushes words in front of `ws`, keeping what is above `top` as it was in `mem`. */
  method PushOn(writer: StackWriter, vs: seq<nat>, ghost ws: seq<nat>, ghost mem: seq<Byte>, ghost top: nat)
    returns (r: Result<(), StackError>)
    requires writer.Valid() && WordsAt(writer.mem, writer.base, writer.cursor, ws)
    requires forall i :: 0 <= i < |vs| ==> vs[i] <= U64_MAX
    requires writer.cursor <= top && SameAbove(mem, writer.mem, writer.base, top)
    modifies writer
    ensures r.Ok? <==> writer.base + 8 * |vs| <= old(writer.cursor)
    ensures r.Ok? ==> writer.Valid() && writer.cursor == old(writer.cursor) - 8 * |vs|
    ensures r.Ok? ==> WordsAt(writer.mem, writer.base, writer.cursor, vs + ws)
    ensures r.Ok? ==> SameAbove(mem, writer.mem, writer.base, top)
  {
    hide WordsAt;
    r := writer.PushWords(vs, ws);
    if r.Ok? {
      Compose(mem, old(writer.mem), writer.mem, writer.base, top, old(writer.cursor));
    }
  }

  lemma NoWords(mem: seq<Byte>, base: nat, a: nat)
    ensures WordsAt(mem, base, a, [])
  {
  }

  /** The bytes of the vectors: argument count, argument and environment pointers, 21 auxiliary entries,
      a null behind each of the three, and a word to keep the alignment. */
  function VectorSize(args: nat, envs: nat): (n: nat)
    ensures n % 16 == 0
  {
    8 * (1 + (args + 1) + (envs + 1) + 2 * 21 + 2 + (if (args + envs + 45) % 2 != 0 then 1 else 0))
  }

  lemma Narrowed(m0: seq<Byte>, m1: seq<Byte>, base: nat, c: nat, c': nat)
    requires SameAbove(m0, m1, base, c) && c <= c' <= base + |m0|
    ensures SameAbove(m0, m1, base, c')
  {
    assert m0[c' - base..] == m0[c - base..][c' - c..];
    assert m1[c' - base..] == m1[c - base..][c' - c..];
  }

  /** The bytes above the vectors: strings with their NULs, and 16 random bytes. */
  function StringBytes(argv: seq<seq<Byte>>, envp: seq<seq<Byte>>, execfn: seq<Byte>, platform: seq<Byte>): nat {
    (|execfn| + 1) + (|platform| + 1) + 16 + |Packed(envp)| + |Packed(argv)|
  }

  /** There is room for `strings` bytes and then, aligned, for the vectors. */
  predicate Fits(base: nat, top: nat, strings: nat, args: nat, envs: nat) {
    base + strings <= top && base + VectorSize(args, envs) <= Align16(top - strings)
  }

  /** A build succeeds exactly if there is room. It leaves an aligned stack pointer inside the stack, at
      which a reader finds the arguments, the environment and the auxiliary vector that went in. */
  method InitializeStack(base: nat, stack: seq<Byte>, argv: seq<seq<Byte>>, envp: seq<seq<Byte>>, execfn: seq<Byte>,
                         platform: seq<Byte>, random: seq<Byte>, auxv: AuxVector)
    returns (r: Result<StackInfo, StackError>, mem: seq<Byte>, ghost platformPtr: nat)
    requires 0 < base && base % 16 == 0 && base + |stack| <= U64_MAX && |random| == 16 && AuxOk(auxv)
             && |argv| <= U64_MAX
    ensures r.Ok? <==> Fits(base, base + |stack|, StringBytes(argv, envp, execfn, platform), |argv|, |envp|)
    ensures r.Ok? ==> r.value.stackPointer % 16 == 0 && base <= r.value.stackPointer <= base + |mem| && |mem| == |stack|
    ensures r.Ok? ==>
              ReadStack(mem, base, r.value.stackPointer) ==
              Some(StackView(|argv|, AllUpToNul(argv), AllUpToNul(envp),
                             Reversed(AuxEntries(r.value.execfnPtr, r.value.randomPtr, platformPtr, auxv))))
    ensures r.Ok? && (forall i :: 0 <= i < |argv| ==> NulFree(argv[i])) ==> AllUpToNul(argv) == argv
    ensures r.Ok? && (forall i :: 0 <= i < |envp| ==> NulFree(envp[i])) ==> AllUpToNul(envp) == envp
    ensures r.Ok? ==> StringAt(mem, base, r.value.execfnPtr, execfn) && StringAt(mem, base, platformPtr, platform)
    ensures r.Ok? ==> Holds(mem, base, r.value.randomPtr, random)
    ensures r.Ok? ==> AreaHolds(mem, base, r.value.argStart, r.value.argEnd, argv)
    ensures r.Ok? ==> AreaHolds(mem, base, r.value.envStart, r.value.envEnd, envp)
  {
    hide ReadStack, Packed, AreaHolds, VectorSize, Align16, Holds, AllUpToNul, NulFree;
    if forall i :: 0 <= i < |argv| ==> NulFree(argv[i]) {
      AllNulFreeAreWhole(argv);
    }
    if forall i :: 0 <= i < |envp| ==> NulFree(envp[i]) {
      AllNulFreeAreWhole(envp);
    }
    platformPtr := 0;
    mem := stack;
    var writer := new StackWriter(base, stack);
    var top := PushTop(writer, execfn, platform, random);
    if top.Err? {
      return Err(top.error), writer.mem, 0;
    }
    ghost var before, at := writer.mem, writer.cursor;
    var info := FinishStack(writer, argv, envp, top.value.execfn, top.value.platform, top.value.random, auxv);
    if info.Err? {
      return Err(info.error), writer.mem, 0;
    }
    mem := writer.mem;
    platformPtr := top.value.platform;
    StillHolds(before, mem, base, at, top.value.execfn, execfn + [0]);
    StillHolds(before, mem, base, at, platformPtr, platform + [0]);
    StillHolds(before, mem, base, at, top.value.random, random);
    r := Ok(info.value);
  }

  datatype TopPointers = TopPointers(execfn: nat, platform: nat, random: nat)

  /** The file name, the platform name and the random bytes at the top of the stack. */
  method PushTop(writer: StackWriter, execfn: seq<Byte>, platform: seq<Byte>, random: seq<Byte>)
    returns (r: Result<TopPointers, StackError>)
    requires writer.Valid()
    modifies writer
    ensures r.Ok? <==> writer.base + (|execfn| + 1) + (|platform| + 1) + |random| <= old(writer.cursor)
    ensures r.Ok? ==>
              writer.Valid() && writer.cursor == old(writer.cursor) - (|execfn| + 1) - (|platform| + 1) - |random|
    ensures r.Ok? ==> |writer.mem| == old(|writer.mem|)
    ensures r.Ok? ==>
              writer.cursor <= r.value.execfn <= old(writer.cursor)
              && StringAt(writer.mem, writer.base, r.value.execfn, execfn)
    ensures r.Ok? ==>
              writer.cursor <= r.value.platform <= old(writer.cursor)
              && StringAt(writer.mem, writer.base, r.value.platform, platform)
    ensures r.Ok? ==>
              writer.cursor <= r.value.random <= old(writer.cursor)
              && Holds(writer.mem, writer.base, r.value.random, random)
  {
    hide Holds;
    var execfnPtr := writer.PushCString(execfn);
    if execfnPtr.Err? {
      return Err(execfnPtr.error);
    }
    ghost var m1, c1 := writer.mem, writer.cursor;
    var platformPtr := writer.PushCString(platform);
    if platformPtr.Err? {
      return Err(platformPtr.error);
    }
    ghost var m2, c2 := writer.mem, writer.cursor;
    var randomPtr := writer.PushRawBytes(random);
    if randomPtr.Err? {
      return Err(randomPtr.error);
    }
    Compose(m1, m2, writer.mem, writer.base, c1, c2);
    StillHolds(m1, writer.mem, writer.base, c1, execfnPtr.value, execfn + [0]);
    StillHolds(m2, writer.mem, writer.base, c2, platformPtr.value, platform + [0]);
    r := Ok(TopPointers(execfnPtr.value, platformPtr.value, randomPtr.value));
  }

  method FinishStack(writer: StackWriter, argv: seq<seq<Byte>>, envp: seq<seq<Byte>>, execfnPtr: nat, platformPtr: nat,
                     randomPtr: nat, auxv: AuxVector)
    returns (r: Result<StackInfo, StackError>)
    requires writer.Valid() && writer.base % 16 == 0 && AuxOk(auxv) && |argv| <= U64_MAX
    requires execfnPtr <= U64_MAX && platformPtr <= U64_MAX && randomPtr <= U64_MAX
    modifies writer
    ensures r.Ok? <==> Fits(writer.base, old(writer.cursor), |Packed(envp)| + |Packed(argv)|, |argv|, |envp|)
    ensures r.Ok? ==> writer.Valid() && SameAbove(old(writer.mem), writer.mem, writer.base, old(writer.cursor))
    ensures r.Ok? ==> r.value.execfnPtr == execfnPtr && r.value.randomPtr == randomPtr
    ensures r.Ok? ==> r.value.stackPointer == writer.cursor && writer.cursor % 16 == 0
    ensures r.Ok? ==>
              ReadStack(writer.mem, writer.base, r.value.stackPointer) ==
              Some(StackView(|argv|, AllUpToNul(argv), AllUpToNul(envp),
                             Reversed(AuxEntries(execfnPtr, randomPtr, platformPtr, auxv))))
    ensures r.Ok? ==> AreaHolds(writer.mem, writer.base, r.value.argStart, r.value.argEnd, argv)
    ensures r.Ok? ==> AreaHolds(writer.mem, writer.base, r.value.envStart, r.value.envEnd, envp)
  {
    hide WordsAt, StringsAt, ReadStack, Packed, VectorSize, Align16, Layout, Reversed, AreaHolds, SameAbove, AllUpToNul;
    AuxEntriesOk(execfnPtr, randomPtr, platformPtr, auxv);
    hide AuxEntries, AuxOk;
    var entries := AuxEntries(execfnPtr, randomPtr, platformPtr, auxv);
    var placed := PushBoth(writer, argv, envp);
    if placed.Err? {
      return Err(placed.error);
    }
    var at := placed.value;
    ghost var mem, cursor := writer.mem, writer.cursor;
    AddressesFit(mem, writer.base, at.envs, envp);
    AddressesFit(mem, writer.base, at.args, argv);
    var pushed, pad := PushVectors(writer, at.args, at.envs, entries);
    if pushed.Err? {
      return Err(pushed.error);
    }
    Compose(old(writer.mem), mem, writer.mem, writer.base, old(writer.cursor), cursor);
    StillPlaced(mem, writer.mem, writer.base, cursor, at, argv, envp);
    LayoutReads(writer.mem, writer.base, writer.cursor, at.args, at.envs, Reversed(entries), pad, argv, envp);
    r := Ok(StackInfo(writer.cursor, at.argStart, at.argEnd, at.envStart, at.envEnd, execfnPtr, randomPtr));
  }

  /** Where the strings are: their addresses, and the areas they fill. */
  datatype Places = Places(args: seq<nat>, envs: seq<nat>, argStart: nat, argEnd: nat, envStart: nat, envEnd: nat)

  predicate Placed(mem: seq<Byte>, base: nat, cursor: nat, at: Places, argv: seq<seq<Byte>>, envp: seq<seq<Byte>>) {
    && StringsAt(mem, base, at.args, argv) && StringsAt(mem, base, at.envs, envp)
    && (forall k :: 0 <= k < |at.args| ==> cursor <= at.args[k])
    && (forall k :: 0 <= k < |at.envs| ==> cursor <= at.envs[k])
    && AreaHolds(mem, base, at.argStart, at.argEnd, argv) && AreaHolds(mem, base, at.envStart, at.envEnd, envp)
    && (argv != [] ==> cursor <= at.argStart) && (envp != [] ==> cursor <= at.envStart)
  }

  lemma StillPlaced(before: seq<Byte>, mem: seq<Byte>, base: nat, cursor: nat, at: Places, argv: seq<seq<Byte>>,
                    envp: seq<seq<Byte>>)
    requires Placed(before, base, cursor, at, argv, envp) && SameAbove(before, mem, base, cursor)
    ensures Placed(mem, base, cursor, at, argv, envp)
  {
    hide StringsAt, Holds, Packed, SameAbove;
    StillStrings(before, mem, base, cursor, at.args, argv);
    StillStrings(before, mem, base, cursor, at.envs, envp);
    if argv != [] {
      StillHolds(before, mem, base, cursor, at.argStart, Packed(argv));
    }
    if envp != [] {
      StillHolds(before, mem, base, cursor, at.envStart, Packed(envp));
    }
  }

  /** The environment and, below it, the arguments. */
  method PushBoth(writer: StackWriter, argv: seq<seq<Byte>>, envp: seq<seq<Byte>>)
    returns (r: Result<Places, StackError>)
    requires writer.Valid()
    modifies writer
    ensures r.Ok? <==> writer.base + |Packed(envp)| + |Packed(argv)| <= old(writer.cursor)
    ensures r.Ok? ==> writer.Valid() && writer.cursor == old(writer.cursor) - |Packed(envp)| - |Packed(argv)|
    ensures r.Ok? ==> SameAbove(old(writer.mem), writer.mem, writer.base, old(writer.cursor))
    ensures r.Ok? ==> Placed(writer.mem, writer.base, writer.cursor, r.value, argv, envp)
  {
    hide StringsAt, Holds, Packed, SameAbove;
    var envAddrs, envLow, envHigh := writer.PushStrings(envp);
    if envAddrs.Err? {
      return Err(envAddrs.error);
    }
    ghost var mem, cursor := writer.mem, writer.cursor;
    var argAddrs, argLow, argHigh := writer.PushStrings(argv);
    if argAddrs.Err? {
      return Err(argAddrs.error);
    }
    Compose(old(writer.mem), mem, writer.mem, writer.base, old(writer.cursor), cursor);
    StillStrings(mem, writer.mem, writer.base, cursor, envAddrs.value, envp);
    StillHolds(mem, writer.mem, writer.base, cursor, cursor, Packed(envp));
    SameCount(writer.mem, writer.base, argAddrs.value, argv);
    SameCount(writer.mem, writer.base, envAddrs.value, envp);
    r := Ok(Places(argAddrs.value, envAddrs.value,
                   if argAddrs.value == [] then 0 else argLow, if argAddrs.value == [] then 0 else argHigh,
                   if envAddrs.value == [] then 0 else envLow, if envAddrs.value == [] then 0 else envHigh));
  }

  lemma AuxEntriesOk(execfn: nat, random: nat, platform: nat, v: AuxVector)
    requires AuxOk(v) && execfn <= U64_MAX && random <= U64_MAX && platform <= U64_MAX
    ensures |AuxEntries(execfn, random, platform, v)| == 21
    ensures forall i :: 0 <= i < 21 ==> 0 < AuxEntries(execfn, random, platform, v)[i].0 <= U64_MAX
    ensures forall i :: 0 <= i < 21 ==> AuxEntries(execfn, random, platform, v)[i].1 <= U64_MAX
  {
  }

  lemma AddressesFit(mem: seq<Byte>, base: nat, ptrs: seq<nat>, strings: seq<seq<Byte>>)
    requires StringsAt(mem, base, ptrs, strings) && 0 < base && base + |mem| <= U64_MAX
    ensures |ptrs| == |strings| && forall i :: 0 <= i < |ptrs| ==> 0 < ptrs[i] <= U64_MAX
  {
    assert forall i :: 0 <= i < |ptrs| ==> StringAt(mem, base, ptrs[i], strings[i]);
  }

  // ---------------------------------------------------------------- about memory that grows downwards

  lemma Unchanged(mem: seq<Byte>, base: nat, cursor: nat)
    requires base <= cursor <= base + |mem|
    ensures SameAbove(mem, mem, base, cursor)
  {
  }

  lemma Compose(m0: seq<Byte>, m1: seq<Byte>, m2: seq<Byte>, base: nat, c0: nat, c1: nat)
    requires SameAbove(m0, m1, base, c0) && SameAbove(m1, m2, base, c1) && c1 <= c0
    ensures SameAbove(m0, m2, base, c0)
  {
    var k := c0 - c1;
    assert m1[c0 - base..] == m1[c1 - base..][k..];
    assert m2[c0 - base..] == m2[c1 - base..][k..];
  }

  lemma Joined(mem: seq<Byte>, base: nat, a: nat, x: seq<Byte>, y: seq<Byte>)
    requires Holds(mem, base, a, x) && Holds(mem, base, a + |x|, y)
    ensures Holds(mem, base, a, x + y)
  {
    var i := a - base;
    assert mem[i..i + |x| + |y|] == mem[i..i + |x|] + mem[i + |x|..i + |x| + |y|];
  }

  lemma MoreStrings(before: seq<Byte>, mem: seq<Byte>, base: nat, cursor: nat, ptr: nat, ptrs: seq<nat>,
                    strings: seq<seq<Byte>>, s: seq<Byte>)
    requires StringsAt(before, base, ptrs, strings) && SameAbove(before, mem, base, cursor)
    requires forall k :: 0 <= k < |ptrs| ==> cursor <= ptrs[k]
    requires StringAt(mem, base, ptr, s)
    ensures StringsAt(mem, base, [ptr] + ptrs, [s] + strings)
  {
    StillStrings(before, mem, base, cursor, ptrs, strings);
  }

  lemma {:induction false} PackedSuffix(strings: seq<seq<Byte>>, i: nat)
    requires i < |strings|
    ensures |strings[i]| + 1 + |Packed(strings[i + 1..])| <= |Packed(strings)|
  {
    if i == 0 {
      assert strings[0 + 1..] == strings[1..];
    } else {
      PackedSuffix(strings[1..], i - 1);
      assert strings[1..][i - 1 + 1..] == strings[i + 1..];
    }
  }

  lemma NoStrings(mem: seq<Byte>, base: nat, cursor: nat)
    requires base <= cursor <= base + |mem|
    ensures Packed([]) == [] && Holds(mem, base, cursor, []) && StringsAt(mem, base, [], [])
  {
  }

  lemma OneStringMore(before: seq<Byte>, mem: seq<Byte>, base: nat, cursor: nat, ptr: nat, strings: seq<seq<Byte>>,
                      i: nat)
    requires i < |strings| && Holds(before, base, cursor, Packed(strings[i + 1..]))
             && SameAbove(before, mem, base, cursor)
    requires StringAt(mem, base, ptr, strings[i]) && ptr + |strings[i]| + 1 == cursor
    ensures strings[i..] == [strings[i]] + strings[i + 1..]
    ensures Holds(mem, base, ptr, Packed(strings[i..]))
            && |Packed(strings[i..])| == |strings[i]| + 1 + |Packed(strings[i + 1..])|
  {
    StillHolds(before, mem, base, cursor, cursor, Packed(strings[i + 1..]));
    Joined(mem, base, ptr, strings[i] + [0], Packed(strings[i + 1..]));
    assert strings[i..][1..] == strings[i + 1..];
  }

  /** `[start, end)` holds exactly the strings; without strings there is no such area. */
  predicate AreaHolds(mem: seq<Byte>, base: nat, start: nat, end: nat, strings: seq<seq<Byte>>) {
    if strings == [] then start == end == 0
    else Holds(mem, base, start, Packed(strings)) && end == start + |Packed(strings)|
  }

  lemma StillStrings(before: seq<Byte>, mem: seq<Byte>, base: nat, cursor: nat, ptrs: seq<nat>, strings: seq<seq<Byte>>)
    requires StringsAt(before, base, ptrs, strings) && SameAbove(before, mem, base, cursor)
    requires forall k :: 0 <= k < |ptrs| ==> cursor <= ptrs[k]
    ensures StringsAt(mem, base, ptrs, strings)
  {
    forall k | 0 <= k < |ptrs|
      ensures StringAt(mem, base, ptrs[k], strings[k])
    {
      StillHolds(before, mem, base, cursor, ptrs[k], strings[k] + [0]);
    }
  }

  lemma NoPairs(ws: seq<nat>)
    ensures Flatten(Reversed([])) + ws == ws
  {
  }

  lemma OnePairMore(aux: seq<(nat, nat)>, i: nat, ws: seq<nat>)
    requires i < |aux|
    ensures [aux[i].0] + ([aux[i].1] + (Flatten(Reversed(aux[..i])) + ws)) == Flatten(Reversed(aux[..i + 1])) + ws
  {
    assert aux[..i + 1][..i] == aux[..i];
    var r := Reversed(aux[..i + 1]);
    assert r == [aux[i]] + Reversed(aux[..i]);
    assert r[1..] == Reversed(aux[..i]);
  }
}
