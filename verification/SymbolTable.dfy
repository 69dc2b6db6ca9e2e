/** The symbol table of a program (core/prog.cpp, core/symbol_table.cpp, core/global.cpp). */
module SymbolTable {

  datatype Kind = EXTERN | FUNC | BLOCK | ATOM

  datatype Visibility = LOCAL | GLOBAL_DEFAULT | GLOBAL_HIDDEN | WEAK_DEFAULT | WEAK_HIDDEN

  class Global {
    const kind: Kind
    const visibility: Visibility
    var name: string
    /** The function of a block. */
    var parent: Global?

    constructor (kind: Kind, visibility: Visibility, name: string)
      ensures this.kind == kind && this.visibility == visibility && this.name == name && parent == null
    {
      this.kind, this.visibility, this.name, parent := kind, visibility, name, null;
    }

    predicate IsLocal() {
      visibility.LOCAL?
    }

    predicate IsWeak() {
      visibility.WEAK_DEFAULT? || visibility.WEAK_HIDDEN?
    }
  }

  // ---------------------------------------------------------------- fresh names

  const WRAP: nat := 0x1_0000_0000

  /** Decimal digits, as std::to_string prints them. */
  function ToString(n: nat): string {
    if n < 10 then [Digit(n)] else ToString(n / 10) + [Digit(n % 10)]
  }

  function Digit(d: nat): char
    requires d < 10
  {
    "0123456789"[d]
  }

  lemma {:induction false} ToStringInjective(m: nat, n: nat)
    requires ToString(m) == ToString(n)
    ensures m == n
  {
    var s, t := ToString(m), ToString(n);
    assert s[|s| - 1] == Digit(m % 10) && t[|t| - 1] == Digit(n % 10);
    if m >= 10 && n >= 10 {
      assert s[..|s| - 1] == ToString(m / 10) && t[..|t| - 1] == ToString(n / 10);
      ToStringInjective(m / 10, n / 10);
    } else {
      NotEmpty(m / 10);
      NotEmpty(n / 10);
    }
  }

  /** What a string of decimal digits denotes. */
  function ValueOf(s: string): int {
    if s == [] then 0 else ValueOf(s[..|s| - 1]) * 10 + (s[|s| - 1] as int - '0' as int)
  }

  /** The digits denote the number, and the first one is 0 only for zero. */
  lemma {:induction false} ToStringDenotes(n: nat)
    ensures ValueOf(ToString(n)) == n && |ToString(n)| > 0
    ensures forall i :: 0 <= i < |ToString(n)| ==> '0' <= ToString(n)[i] <= '9'
    ensures ToString(n)[0] == '0' ==> n == 0
  {
    DigitIs(n % 10);
    if n < 10 {
      assert ToString(n)[..0] == [];
    } else {
      ToStringDenotes(n / 10);
      var s := ToString(n);
      assert s[..|s| - 1] == ToString(n / 10) && s[|s| - 1] == Digit(n % 10);
    }
  }

  lemma DigitIs(d: nat)
    requires d < 10
    ensures Digit(d) as int == '0' as int + d
  {
  }

  lemma {:induction false} NotEmpty(n: nat)
    ensures |ToString(n)| > 0
  {
  }

  function LocalName(orig: string, k: nat): string {
    orig + "$local" + ToString(k % WRAP)
  }

  lemma LocalNameInjective(orig: string, j: nat, k: nat)
    requires j < k < j + WRAP
    ensures LocalName(orig, j) != LocalName(orig, k)
  {
    var p := orig + "$local";
    if LocalName(orig, j) == LocalName(orig, k) {
      assert LocalName(orig, j)[|p|..] == ToString(j % WRAP);
      assert LocalName(orig, k)[|p|..] == ToString(k % WRAP);
      ToStringInjective(j % WRAP, k % WRAP);
      SameRemainder(j, k);
    }
  }

  lemma SameRemainder(j: nat, k: nat)
    requires j < k < j + WRAP
    ensures j % WRAP != k % WRAP
  {
  }

  // ---------------------------------------------------------------- the table

  /** A new symbol takes the name of prev, which is deleted. */
  predicate Displaces(prev: Global, g: Global) {
    prev.kind.EXTERN? || (!g.visibility.LOCAL? && prev.visibility in {WEAK_DEFAULT, WEAK_HIDDEN})
  }

  /** One of the two gives way and is renamed. */
  predicate GivesWay(prev: Global, g: Global) {
    !Displaces(prev, g) && (g.visibility.LOCAL? || prev.visibility.LOCAL?)
  }

  /** Names and symbols correspond one to one. */
  ghost predicate NamedIn(table: map<string, Global>, symbols: set<Global>)
    reads symbols
  {
    && (forall n :: n in table ==> table[n] in symbols && table[n].name == n)
    && (forall g :: g in symbols ==> g.name in table && table[g.name] == g)
  }

  lemma NamedPlus(table: map<string, Global>, symbols: set<Global>, g: Global)
    requires NamedIn(table, symbols) && g.name !in table
    ensures NamedIn(table[g.name := g], symbols + {g}) && g !in symbols
  {
  }

  lemma NamedMinus(table: map<string, Global>, symbols: set<Global>, g: Global)
    requires NamedIn(table, symbols) && g in symbols
    ensures NamedIn(table - {g.name}, symbols - {g})
  {
  }

  /** The table without the given symbols. */
  ghost predicate Forgot(table: map<string, Global>, before: map<string, Global>, gone: set<Global>) {
    && (forall n :: n in table <==> n in before && before[n] !in gone)
    && (forall n :: n in table ==> table[n] == before[n])
  }

  lemma ForgotNamed(table: map<string, Global>, before: map<string, Global>, symbols: set<Global>, gone: set<Global>)
    requires NamedIn(before, symbols) && Forgot(table, before, gone)
    ensures NamedIn(table, symbols - gone)
  {
  }

  lemma ForgotMore(table: map<string, Global>, before: map<string, Global>, symbols: set<Global>, gone: set<Global>,
                   g: Global)
    requires NamedIn(before, symbols) && Forgot(table, before, gone) && g in symbols && g !in gone
    ensures g.name in table && Forgot(table - {g.name}, before, gone + {g})
  {
  }

  class Prog {
    var globals: map<string, Global>
    /** What each use refers to. */
    var uses: map<nat, Global?>
    /** The two counters for fresh names. */
    var uniqueNew: nat
    var uniquePrev: nat
    /** The symbols of the program. */
    ghost var live: set<Global>

    constructor ()
      ensures Valid() && live == {} && globals == map[] && uses == map[]
    {
      globals, uses, uniqueNew, uniquePrev, live := map[], map[], 0, 0, {};
    }

    ghost predicate Valid()
      reads this, live
    {
      NamedIn(globals, live) && Nested()
    }

    /** The parent of a live symbol is a live function. */
    ghost predicate Nested()
      reads this, live
    {
      forall b :: b in live && b.parent != null ==> b.kind.BLOCK? && b.parent in live && b.parent.kind.FUNC?
    }

    /** The first free name from the counter on. */
    method Rename(x: Global, start: nat) returns (next: nat)
      requires |globals| < WRAP
      modifies x`name, this`globals
      ensures next > start && x.name == LocalName(old(x.name), next - 1) && x.name !in old(globals)
      ensures forall k: nat :: start <= k < next - 1 ==> LocalName(old(x.name), k) in old(globals)
      ensures globals == old(globals)[x.name := x]
    {
      hide LocalName;
      var orig := x.name;
      next := start + 1;
      x.name := LocalName(orig, start);
      ghost var tried: set<string> := {};
      while x.name in globals
        invariant globals == old(globals) && next > start && x.name == LocalName(orig, next - 1)
        invariant tried <= globals.Keys && |tried| == next - 1 - start
        invariant forall n :: n in tried <==> exists k: nat :: start <= k < next - 1 && n == LocalName(orig, k)
        decreases globals.Keys - tried
      {
        SubsetSize(tried, globals.Keys);
        forall k: nat | start <= k < next - 1
          ensures LocalName(orig, k) != x.name
        {
          LocalNameInjective(orig, k, next - 1);
        }
        tried := tried + {x.name};
        x.name := LocalName(orig, next);
        next := next + 1;
      }
      globals := globals[x.name := x];
    }

    /** Forgets a name that is in the table. */
    method RemoveGlobalName(name: string)
      requires name in globals
      modifies this`globals
      ensures globals == old(globals) - {name}
    {
      globals := globals - {name};
    }

    /** What is deleted with a symbol: with a function, its blocks. */
    ghost function Gone(g: Global): set<Global>
      reads this, live
    {
      {g} + Blocks(g)
    }

    ghost function Blocks(g: Global): set<Global>
      reads this, live
    {
      set b | b in live && b.parent == g
    }

    /** Uses of deleted symbols are empty. */
    ghost predicate Cleared(before: map<nat, Global?>, gone: set<Global>)
      reads this
    {
      && uses.Keys == before.Keys
      && forall u :: u in uses ==> uses[u] == if before[u] != null && before[u] in gone then null else before[u]
    }

    /** Removes the names of the blocks of a function and then its own. */
    method RemoveNames(g: Global, blocks: set<Global>)
      requires Valid() && g in live && blocks <= live && g !in blocks
      modifies this`globals
      ensures Forgot(globals, old(globals), blocks + {g})
    {
      hide NamedIn, Forgot;
      ghost var before := globals;
      var rest := blocks;
      ForgotNothing(globals);
      assert blocks - rest == {};
      while rest != {}
        invariant rest <= blocks && Forgot(globals, before, blocks - rest)
        decreases rest
      {
        var b :| b in rest;
        ForgotMore(globals, before, live, blocks - rest, b);
        RemoveGlobalName(b.name);
        assert blocks - rest + {b} == blocks - (rest - {b});
        rest := rest - {b};
      }
      assert blocks - rest == blocks;
      ForgotMore(globals, before, live, blocks, g);
      RemoveGlobalName(g.name);
    }

    /** Takes a symbol out of its list, and a function with all its blocks; uses of what is
        deleted become empty. */
    method Erase(g: Global)
      requires Valid() && g in live
      modifies this`globals, this`uses, this`live
      ensures Valid() && live == old(live) - old(Gone(g))
      ensures Forgot(globals, old(globals), old(Gone(g))) && Cleared(old(uses), old(Gone(g)))
    {
      hide Forgot;
      ghost var gone := Gone(g);
      var blocks := set b | b in globals.Values && b.parent == g;
      SameBlocks(g, blocks);
      RemoveNames(g, blocks);
      assert blocks + {g} == gone;
      ForgotNamed(globals, old(globals), live, gone);
      uses := map u | u in uses :: if uses[u] != null && (uses[u] == g || uses[u] in blocks) then null else uses[u];
      live := live - gone;
    }

    lemma SameBlocks(g: Global, blocks: set<Global>)
      requires Valid() && blocks == set b | b in globals.Values && b.parent == g
      ensures blocks == Blocks(g) && g !in blocks
    {
      forall b | b in live
        ensures b in globals.Values
      {
        assert globals[b.name] == b;
      }
    }

    /** g may be inserted, as a symbol of its own or into a live function. */
    ghost predicate Insertable(g: Global)
      reads this, live, g
    {
      && g !in live
      && (g.parent != null ==> g.kind.BLOCK? && g.parent in live && g.parent.kind.FUNC?)
    }

    /** g does not displace the function that it is inserted into. */
    ghost predicate KeepsOwner(g: Global)
      reads this, g
    {
      OwnerKept(g, g.parent)
    }

    ghost predicate OwnerKept(g: Global, parent: Global?)
      reads this, g
    {
      g.name in globals && globals[g.name] == parent ==> !Displaces(globals[g.name], g)
    }

    /** The symbols once g is in the table: if it displaces the one that has its name, that one
        is deleted with its blocks. */
    ghost function LiveAfter(g: Global): set<Global>
      reads this, live, g
    {
      if g.name in globals && Displaces(globals[g.name], g) then live - Gone(globals[g.name]) + {g} else live + {g}
    }

    /** Inserting a block keeps the function it belongs to, and with it the parent of every live
        block, iff the block does not displace that very function. */
    lemma OwnerSurvives(b: Global)
      requires Valid() && Insertable(b) && b.parent != null
      ensures b.parent in LiveAfter(b) <==> KeepsOwner(b)
      ensures KeepsOwner(b) <==> forall x :: x in LiveAfter(b) && x.parent != null ==> x.parent in LiveAfter(b)
    {
      if b.name in globals {
        NamedLookup(globals, live, b.name);
        var prev := globals[b.name];
        ParentOfFunc(b.parent);
        forall x | x in live && x.parent != null && x !in Gone(prev)
          ensures x.parent !in Gone(prev)
        {
          if x.parent in Blocks(prev) {
            ParentOfFunc(x.parent);
          }
        }
      }
    }

    /** A weak function with a block of its own name: inserting the block deletes the function
        that is being walked. */
    static method WeakFunctionClaimed() returns (p: Prog, f: Global, b: Global)
      ensures p.Valid() && p.live == {f} && f.kind.FUNC? && b.kind.BLOCK? && b.parent == f && b.name == f.name
      ensures f.visibility in {WEAK_DEFAULT, WEAK_HIDDEN} && !b.visibility.LOCAL?
      ensures f !in p.LiveAfter(b) && b in p.LiveAfter(b)
    {
      hide NamedIn, Prog.Nested;
      f := new Global(FUNC, WEAK_DEFAULT, "f");
      b := new Global(BLOCK, GLOBAL_DEFAULT, "f");
      b.parent := f;
      p := new Prog();
      var ok := p.AddNode(f, null);
      p.OwnName(f);
    }

    lemma OwnName(f: Global)
      requires Valid() && f in live
      ensures f.name in globals && globals[f.name] == f
    {
    }

    /** g takes over the name and the uses of prev, which is deleted. */
    method Displace(prev: Global, g: Global)
      requires Valid() && Insertable(g) && g.name in globals && prev == globals[g.name] && Displaces(prev, g)
      modifies this`globals, this`uses, this`live
      ensures NamedIn(globals, live) && live == old(live) - old(Gone(prev)) + {g}
      ensures Valid() <==> old(KeepsOwner(g))
      ensures uses.Keys == old(uses.Keys)
      ensures forall u :: u in uses ==> uses[u] == MovedUse(old(uses)[u], prev, g, old(Blocks(prev)))
    {
      hide NamedIn, Forgot;
      uses := map u | u in uses :: if uses[u] == prev then g else uses[u];
      NamedLookup(globals, live, g.name);
      ghost var table, gone := globals, Gone(prev);
      assert gone == old(Gone(prev));
      Erase(prev);
      ForgotName(globals, table, gone, g.name);
      NamedPlus(globals, live, g);
      globals := globals[g.name := g];
      live := live + {g};
    }

    /** A name that is free. */
    method AddFree(g: Global)
      requires Valid() && Insertable(g) && g.name !in globals
      modifies this`globals, this`live
      ensures Valid() && live == old(live) + {g}
    {
      globals := globals[g.name := g];
      live := live + {g};
    }

    /** A local symbol gives way to the one that has its name. */
    method RenameNew(g: Global)
      requires Valid() && Insertable(g) && g.name in globals && |globals| < WRAP
      modifies this`globals, this`live, this`uniqueNew, g`name
      ensures Valid() && live == old(live) + {g} && IsFresh(g.name, old(g.name), old(globals))
    {
      hide NamedIn;
      uniqueNew := RenameOut(g, uniqueNew, live);
      live := live + {g};
    }

    /** A local symbol that has the name of g gives way to g. */
    method RenamePrev(prev: Global, g: Global)
      requires Valid() && Insertable(g) && g.name in globals && prev == globals[g.name] && |globals| < WRAP
      modifies this`globals, this`live, this`uniquePrev, prev`name
      ensures Valid() && live == old(live) + {g} && IsFresh(prev.name, old(prev.name), old(globals))
    {
      hide NamedIn;
      ghost var rest := live - {prev} + {g};
      TakeName(prev, g);
      SameSize(old(globals), globals);
      assert NamedIn(globals, rest) && prev !in rest;
      uniquePrev := RenameOut(prev, uniquePrev, rest);
      assert rest + {prev} == live + {g};
      live := live + {g};
    }

    /** Drops the old entry of prev and enters g under the same name. */
    method TakeName(prev: Global, g: Global)
      requires Valid() && g !in live && g.name in globals && prev == globals[g.name]
      modifies this`globals
      ensures NamedIn(globals, live - {prev} + {g}) && prev in live && globals.Keys == old(globals.Keys)
    {
      hide NamedIn, Nested;
      NamedLookup(globals, live, g.name);
      NamedMinus(globals, live, prev);
      RemoveGlobalName(prev.name);
      NamedPlus(globals, live - {prev}, g);
      globals := globals[g.name := g];
    }

    /** Renames a symbol that is not in the table and enters it. */
    method RenameOut(x: Global, start: nat, ghost rest: set<Global>) returns (next: nat)
      requires NamedIn(globals, rest) && x !in rest && |globals| < WRAP
      modifies x`name, this`globals
      ensures NamedIn(globals, rest + {x}) && IsFresh(x.name, old(x.name), old(globals))
    {
      hide NamedIn;
      ghost var before := globals;
      next := Rename(x, start);
      NamedPlus(before, rest, x);
    }

    /** The symbol that has the name of g, if any. */
    function Prev(g: Global): Global
      reads this, g
    {
      if g.name in globals then globals[g.name] else g
    }

    /** Adds a symbol to the table.  If its name is taken, one of the two symbols is deleted
        or renamed, or the names clash and the program is rejected. */
    method InsertGlobal(g: Global) returns (ok: bool)
      requires Valid() && Insertable(g) && |globals| < WRAP
      modifies this, g`name, Prev(g)`name
      ensures ok <==> (old(g.name) !in old(globals) || Displaces(old(Prev(g)), g) || GivesWay(old(Prev(g)), g))
      ensures ok ==> NamedIn(globals, live) && (Valid() <==> old(KeepsOwner(g)))
      ensures ok ==>
        var taken, prev := old(g.name) in old(globals), old(Prev(g));
        if taken && Displaces(prev, g) then
          && live == old(live) - old(Gone(Prev(g))) + {g} && uses.Keys == old(uses.Keys)
          && (forall u :: u in uses ==> uses[u] == MovedUse(old(uses)[u], prev, g, old(Blocks(Prev(g)))))
          && g.name == old(g.name) && prev.name == old(Prev(g).name)
        else
          && live == old(live) + {g} && uses == old(uses)
          && (if taken && g.visibility.LOCAL? then IsFresh(g.name, old(g.name), old(globals))
              else g.name == old(g.name))
          && (if taken && !g.visibility.LOCAL? then IsFresh(prev.name, old(Prev(g).name), old(globals)) else taken ==>
               prev.name == old(Prev(g).name))
    {
      hide NamedIn, Nested;
      ok := true;
      if g.name !in globals {
        AddFree(g);
        return;
      }
      NamedLookup(globals, live, g.name);
      var prev := globals[g.name];
      if prev.kind.EXTERN? {
        Displace(prev, g);
      } else if g.IsLocal() {
        RenameNew(g);
      } else if prev.IsWeak() {
        Displace(prev, g);
      } else if prev.IsLocal() {
        RenamePrev(prev, g);
      } else {
        ok := false;
      }
    }

    /** Appends an extern, an atom or a block to its list. */
    method AddNode(g: Global, parent: Global?) returns (ok: bool)
      requires Valid() && g !in live && g.parent == null && |globals| < WRAP
      requires parent != null ==> g.kind.BLOCK? && parent in live && parent.kind.FUNC?
      modifies this, g, Prev(g)`name
      ensures ok <==> (old(g.name) !in old(globals) || Displaces(old(Prev(g)), g) || GivesWay(old(Prev(g)), g))
      ensures ok ==> NamedIn(globals, live) && (Valid() <==> old(OwnerKept(g, parent)))
      ensures ok ==> g in live && g.parent == parent && live <= old(live) + {g} && |globals| <= |old(globals)| + 1
      ensures ok ==> forall x :: x in live && !x.visibility.LOCAL? ==> x.name == old(x.name)
    {
      hide NamedIn, Nested, IsFresh, MovedUse, Gone;
      NamedSize(globals, live);
      g.parent := parent;
      ok := InsertGlobal(g);
      if ok {
        SubsetSize(live, old(live) + {g});
        NamedSize(globals, live);
      }
    }

    /** One of the blocks claims the name of the function, which is weak. */
    ghost predicate SelfClaimed(f: Global, blocks: seq<Global>)
      reads f, blocks
    {
      exists b :: b in blocks && b.name == f.name && Displaces(f, b)
    }

    /** Appends a function and then inserts its blocks.  A block that claims the name of the
        function, which is weak, deletes it: its blocks are then walked no further. */
    method AddFunc(f: Global, blocks: seq<Global>) returns (ok: bool, lost: bool)
      requires Valid() && f !in live && f.kind.FUNC? && f.parent == null && |globals| + |blocks| < WRAP
      requires forall b :: b in blocks ==> b !in live && b.kind.BLOCK? && b.parent == f
      requires NoRepeats(blocks)
      modifies this, f, live`name, blocks`name
      ensures ok ==> (lost <==> old(SelfClaimed(f, blocks)))
      ensures lost ==> ok && f !in live
      ensures ok && !lost ==> Valid() && f in live && live <= old(live) + {f} + set b | b in blocks
      ensures ok && !lost ==> AllThere(blocks, |blocks|, live, old(map b | b in blocks :: b.name))
      ensures ok && !lost ==> forall x :: x in live && !x.visibility.LOCAL? ==> x.name == old(x.name)
    {
      hide NamedIn, Nested, NoRepeats, GivesWay, Inserting, AllThere, SelfClaimed, Claiming, Displaces;
      PrevInside(f);
      ghost var claims := map b | b in blocks :: b.name;
      ClaimNow(f, blocks, claims);
      lost := false;
      ok := AddNode(f, null);
      if ok {
        ghost var all := live + set b | b in blocks;
        ghost var names: map<Global, string> := map x: Global | x in all :: x.name;
        StartInserting(f, blocks, names);
        SameClaim(f, blocks, old(f.name), claims, names);
        ok, lost := InsertBlocks(f, blocks, names);
        if ok && !lost {
          InsertedAll(f, blocks, names);
          SameClaims(blocks, live, names, claims);
        }
      }
    }

    /** b takes the name of the weak function that it belongs to. */
    predicate ClaimsOwner(f: Global, b: Global, names: map<Global, string>) {
      f in names && b in names && names[b] == names[f] && Displaces(f, b)
    }

    /** One of the blocks takes the given name of their weak function. */
    static ghost predicate Claiming(f: Global, blocks: seq<Global>, name: string, names: map<Global, string>) {
      exists b :: b in blocks && b in names && names[b] == name && Displaces(f, b)
    }

    lemma ClaimNow(f: Global, blocks: seq<Global>, claims: map<Global, string>)
      requires forall b :: b in blocks ==> b in claims && claims[b] == b.name
      ensures SelfClaimed(f, blocks) <==> Claiming(f, blocks, f.name, claims)
    {
    }

    /** A weak function is not renamed when it is inserted, and neither are its blocks. */
    lemma SameClaim(f: Global, blocks: seq<Global>, name: string, claims: map<Global, string>,
                    names: map<Global, string>)
      requires f.kind.FUNC? && f in names && (f.visibility.LOCAL? || names[f] == name)
      requires forall b :: b in blocks ==> b in claims && b in names && names[b] == claims[b]
      ensures Claiming(f, blocks, name, claims) <==> Claiming(f, blocks, names[f], names)
    {
    }

    /** The first n blocks of f have been inserted; names are those from before. */
    ghost predicate Inserting(f: Global, blocks: seq<Global>, n: nat, names: map<Global, string>)
      reads this, live, blocks, f
    {
      && f in live && f.kind.FUNC? && f in names && n <= |blocks| && NoRepeats(blocks)
      && (forall b :: b in blocks ==> b in names && b.kind.BLOCK? && b.parent == f)
      && (forall j :: 0 <= j < n ==> !ClaimsOwner(f, blocks[j], names))
      && (forall j :: n <= j < |blocks| ==> blocks[j] !in live && blocks[j].name == names[blocks[j]])
      && (forall x :: x in live && !x.visibility.LOCAL? ==> x in names && x.name == names[x])
      && AllThere(blocks, n, live, names)
    }

    /** Inserts the blocks of a function; names are the names from before. */
    method InsertBlocks(f: Global, blocks: seq<Global>, ghost names: map<Global, string>) returns (ok: bool, lost: bool)
      requires Valid() && Inserting(f, blocks, 0, names) && |globals| + |blocks| <= WRAP
      modifies this, live`name, blocks`name
      ensures f in names && (ok ==> (lost <==> Claiming(f, blocks, names[f], names)))
      ensures lost ==> ok && f !in live
      ensures ok && !lost ==>
        Valid() && Inserting(f, blocks, |blocks|, names) && live <= old(live) + set b | b in blocks
    {
      hide Valid, Inserting, Prev, Claiming, ClaimsOwner;
      LiveSize();
      KnownNames(f, blocks, names);
      ghost var size := |live|;
      ok, lost := true, false;
      for i := 0 to |blocks|
        invariant Valid() && Inserting(f, blocks, i, names) && |live| <= size + i && ok && !lost
        invariant live <= old(live) + set b | b in blocks
      {
        LiveSize();
        PrevInside(blocks[i]);
        NextClaims(f, blocks, i, names);
        if blocks[i].name == f.name && Displaces(f, blocks[i]) {
          ok := InsertOver(f, blocks[i]);
          ClaimFound(f, blocks, i, names);
          return ok, true;
        }
        ok := InsertNext(f, blocks[i], blocks, i, names);
        if !ok {
          return;
        }
      }
      NoClaim(f, blocks, names);
    }

    lemma KnownNames(f: Global, blocks: seq<Global>, names: map<Global, string>)
      requires Inserting(f, blocks, 0, names)
      ensures f in names
    {
    }

    lemma ClaimFound(f: Global, blocks: seq<Global>, i: nat, names: map<Global, string>)
      requires i < |blocks| && ClaimsOwner(f, blocks[i], names)
      ensures Claiming(f, blocks, names[f], names)
    {
      assert blocks[i] in blocks;
    }

    lemma NoClaim(f: Global, blocks: seq<Global>, names: map<Global, string>)
      requires Inserting(f, blocks, |blocks|, names)
      ensures f in names && !Claiming(f, blocks, names[f], names)
    {
    }

    /** The block deletes the function it belongs to. */
    method InsertOver(f: Global, b: Global) returns (ok: bool)
      requires Valid() && f in live && f.kind.FUNC? && b !in live && b.kind.BLOCK? && b.parent == f && |globals| < WRAP
      requires b.name == f.name && Displaces(f, b)
      modifies this, b`name, Prev(b)`name
      ensures ok && f !in live
    {
      hide NamedIn, Nested;
      OwnName(f);
      ok := InsertGlobal(b);
    }

    /** The next block still has its name, and so has a weak function. */
    lemma NextClaims(f: Global, blocks: seq<Global>, i: nat, names: map<Global, string>)
      requires Inserting(f, blocks, i, names) && i < |blocks|
      ensures f in live && f.kind.FUNC? && blocks[i] !in live && blocks[i].kind.BLOCK? && blocks[i].parent == f
      ensures blocks[i].name == f.name && Displaces(f, blocks[i]) <==> ClaimsOwner(f, blocks[i], names)
    {
    }

    lemma LiveSize()
      requires Valid()
      ensures |globals| == |live|
    {
      NamedSize(globals, live);
    }

    lemma StartInserting(f: Global, blocks: seq<Global>, names: map<Global, string>)
      requires f in live && f.kind.FUNC? && NoRepeats(blocks)
      requires forall b :: b in blocks ==> b !in live && b.kind.BLOCK? && b.parent == f
      requires forall x :: x in live || x in blocks ==> x in names && names[x] == x.name
      ensures Inserting(f, blocks, 0, names)
    {
      NoneThere(blocks, live, names);
    }

    lemma InsertedAll(f: Global, blocks: seq<Global>, names: map<Global, string>)
      requires Inserting(f, blocks, |blocks|, names)
      ensures f in live && AllThere(blocks, |blocks|, live, names)
      ensures forall x :: x in live && !x.visibility.LOCAL? ==> x in names && x.name == names[x]
    {
    }

    /** One more block; it takes the place of those that it displaces. */
    method InsertNext(f: Global, b: Global, blocks: seq<Global>, i: nat, ghost names: map<Global, string>)
        returns (ok: bool)
      requires Valid() && Inserting(f, blocks, i, names) && |globals| < WRAP && i < |blocks| && b == blocks[i]
      requires b.name == f.name ==> !Displaces(f, b)
      modifies this, b`name, Prev(b)`name
      ensures ok ==> Valid() && Inserting(f, blocks, i + 1, names)
      ensures ok ==> live <= old(live) + {b} && |live| <= |old(live)| + 1
      ensures ok ==> old(Prev(b)) in old(live) + {b}
    {
      hide NamedIn, Nested, NoRepeats, AllThere;
      LaterDiffer(blocks, i);
      ok := InsertBlock(f, b);
      if ok {
        OneMoreThere(blocks, i, old(live), live, names);
      }
    }

    lemma PrevInside(g: Global)
      requires Valid()
      ensures Prev(g) in live + {g} && Prev(g).name == g.name
    {
    }

    lemma ParentOfFunc(f: Global)
      requires Valid() && f in live && f.kind.FUNC?
      ensures f.parent == null
    {
    }

    lemma OtherOwner(f: Global, b: Global)
      requires Valid() && f in live && b.parent == f && (b.name == f.name ==> !Displaces(f, b))
      ensures KeepsOwner(b)
    {
    }

    method InsertBlock(f: Global, b: Global) returns (ok: bool)
      requires Valid() && f in live && f.kind.FUNC? && b !in live && b.kind.BLOCK? && b.parent == f && |globals| < WRAP
      requires b.name == f.name ==> !Displaces(f, b)
      modifies this, b`name, Prev(b)`name
      ensures ok ==> Valid() && f in live && live <= old(live) + {b} && |live| <= |old(live)| + 1
      ensures ok ==> b in live
      ensures ok ==> forall x :: x in old(live) && x.parent == f && x !in live ==>
        !x.visibility.LOCAL? && old(x.name) == old(b.name)
      ensures ok ==> old(Prev(b)) in old(live) + {b}
      ensures ok ==> forall x :: x in live && !x.visibility.LOCAL? ==> x.name == old(x.name)
    {
      hide NamedIn, Nested, IsFresh, MovedUse, KeepsOwner, OwnerKept, Gone, Displaces;
      if b.name in globals {
        NamedLookup(globals, live, b.name);
      }
      OtherOwner(f, b);
      ParentOfFunc(f);
      GoneOfFunc(f, b);
      ok := InsertGlobal(b);
      if ok {
        SubsetSize(live, old(live) + {b});
      }
    }

    /** Of a function and its blocks only a block with the same name can be displaced. */
    lemma GoneOfFunc(f: Global, b: Global)
      requires Valid() && f in live && f.kind.FUNC? && b.parent == f && (b.name == f.name ==> !Displaces(f, b))
      ensures b.name in globals && Displaces(globals[b.name], b) ==>
        && f !in Gone(globals[b.name])
        && forall x :: x in Gone(globals[b.name]) && x.parent == f ==> !x.visibility.LOCAL? && x.name == b.name
    {
      if b.name in globals {
        NamedLookup(globals, live, b.name);
      }
    }

    /** The symbol with a name; an extern is added if there is none. */
    method GetGlobalOrExtern(name: string) returns (g: Global)
      requires Valid() && |globals| < WRAP
      modifies this
      ensures Valid() && g in live && g.name == name && name in globals && globals[name] == g
      ensures name in old(globals) ==> g == old(globals)[name] && globals == old(globals) && live == old(live)
      ensures name !in old(globals) ==> fresh(g) && g.kind.EXTERN? && live == old(live) + {g}
    {
      if name in globals {
        return globals[name];
      }
      g := new Global(EXTERN, GLOBAL_DEFAULT, name);
      var ok := InsertGlobal(g);
    }
  }

  /** Every one of the first n blocks is live, or a later one that claimed the same name is. */
  ghost predicate AllThere(blocks: seq<Global>, n: nat, live: set<Global>, claims: map<Global, string>) {
    n <= |blocks| && forall j: nat :: j < n ==> Claimed(blocks, j, n, live, claims)
  }

  ghost predicate Claimed(blocks: seq<Global>, j: nat, n: nat, live: set<Global>, claims: map<Global, string>) {
    exists k: nat :: j <= k < n && There(blocks, j, k, live, claims)
  }

  ghost predicate There(blocks: seq<Global>, j: nat, k: nat, live: set<Global>, claims: map<Global, string>) {
    && j < |blocks| && k < |blocks| && blocks[j] in claims && blocks[k] in claims
    && blocks[k] in live && claims[blocks[k]] == claims[blocks[j]]
  }

  lemma NoneThere(blocks: seq<Global>, live: set<Global>, claims: map<Global, string>)
    ensures AllThere(blocks, 0, live, claims)
  {
  }

  lemma SameClaims(blocks: seq<Global>, live: set<Global>, names: map<Global, string>, claims: map<Global, string>)
    requires AllThere(blocks, |blocks|, live, names)
    requires forall b :: b in blocks ==> b in names && b in claims && names[b] == claims[b]
    ensures AllThere(blocks, |blocks|, live, claims)
  {
    forall j: nat | j < |blocks|
      ensures Claimed(blocks, j, |blocks|, live, claims)
    {
      assert Claimed(blocks, j, |blocks|, live, names);
      var k: nat :| j <= k < |blocks| && There(blocks, j, k, live, names);
      assert There(blocks, j, k, live, claims);
    }
  }

  lemma OneMoreThere(blocks: seq<Global>, n: nat, before: set<Global>, live: set<Global>, claims: map<Global, string>)
    requires AllThere(blocks, n, before, claims) && n < |blocks| && blocks[n] in live && blocks[n] in claims
    requires forall j :: 0 <= j < n && blocks[j] in before && blocks[j] !in live && blocks[j] in claims ==>
      claims[blocks[j]] == claims[blocks[n]]
    ensures AllThere(blocks, n + 1, live, claims)
  {
    var m := n + 1;
    forall j: nat | j < m
      ensures Claimed(blocks, j, m, live, claims)
    {
      if j == n {
        assert There(blocks, n, n, live, claims);
      } else {
        assert Claimed(blocks, j, n, before, claims);
        var k: nat :| j <= k < n && There(blocks, j, k, before, claims);
        if blocks[k] in live {
          assert There(blocks, j, k, live, claims);
        } else {
          assert There(blocks, j, n, live, claims);
        }
      }
    }
  }

  ghost predicate NoRepeats(s: seq<Global>) {
    forall i, j :: 0 <= i < j < |s| ==> s[i] != s[j]
  }

  lemma LaterDiffer(s: seq<Global>, i: nat)
    requires NoRepeats(s) && i < |s|
    ensures forall j :: i < j < |s| ==> s[j] != s[i]
  {
  }

  lemma {:induction false} NamedSize(table: map<string, Global>, symbols: set<Global>)
    requires NamedIn(table, symbols)
    ensures |table| == |symbols|
    decreases symbols
  {
    if symbols == {} {
      assert table == map[];
    } else {
      var g :| g in symbols;
      NamedMinus(table, symbols, g);
      NamedSize(table - {g.name}, symbols - {g});
      assert table.Keys == (table - {g.name}).Keys + {g.name};
    }
  }

  lemma NamedLookup(table: map<string, Global>, symbols: set<Global>, name: string)
    requires NamedIn(table, symbols) && name in table
    ensures table[name] in symbols && table[name].name == name
  {
  }

  lemma ForgotNothing(table: map<string, Global>)
    ensures Forgot(table, table, {})
  {
  }

  lemma ForgotName(table: map<string, Global>, before: map<string, Global>, gone: set<Global>, name: string)
    requires Forgot(table, before, gone) && name in before && before[name] in gone
    ensures name !in table
  {
  }

  lemma SameSize(m: map<string, Global>, n: map<string, Global>)
    requires n.Keys == m.Keys
    ensures |n| == |m|
  {
    assert |n| == |n.Keys| && |m| == |m.Keys|;
  }

  /** A name made from an old one that was not in the table. */
  ghost predicate IsFresh(name: string, orig: string, table: map<string, Global>) {
    name !in table && exists k: nat :: k < WRAP && name == orig + "$local" + ToString(k)
  }

  /** What a use of a displaced symbol, or of a block that goes with it, refers to. */
  function MovedUse(use: Global?, prev: Global, g: Global, blocks: set<Global>): Global? {
    if use == prev then g else if use != null && use in blocks then null else use
  }

  lemma {:induction false} SubsetSize<T>(s: set<T>, t: set<T>)
    requires s <= t
    ensures |s| <= |t|
  {
    if s != {} {
      var x :| x in s;
      SubsetSize(s - {x}, t - {x});
    }
  }
}
