/** The stackless-bytecode function target of the Move prover: the owned data
    of a function under transformation (`FunctionTargetData`, a class whose spec
    block allocator and generated-block map are updated in place) and the read
    only view over it (`FunctionTarget`). The spec language, its types and the
    bytecode set are not part of this model; they appear as the small
    stand-ins below, which carry only what the functions here look at. */
module FunctionTargets {
  import opened Common

  type SpecBlockId = nat
  type AttrId = nat
  type CodeOffset = nat
  type ModuleId = nat
  type FunId = nat
  type StructId = nat

  /** A function named by its module and its index in that module. */
  datatype QualifiedFunId = QualifiedFunId(moduleId: ModuleId, funId: FunId)

  datatype Loc = Loc(fileId: nat, start: nat, end: nat)

  datatype Type =
    | Primitive(kind: nat)
    | Vector(element: Type)
    | Struct(moduleId: ModuleId, structId: StructId, typeArgs: seq<Type>)
    | TypeParameter(index: nat)
    | Reference(isMutable: bool, referent: Type)

  /** A specification block; its conditions are opaque here. */
  datatype Spec = Spec(conditions: seq<nat>)

  datatype Operation =
    | Function(moduleId: ModuleId, funId: FunId, typeArgs: seq<Type>)
    | OtherOperation(opcode: nat)

  datatype Bytecode =
    | Call(attrId: AttrId, dests: seq<nat>, op: Operation, srcs: seq<nat>)
    | OtherBytecode(attrId: AttrId)

  // ---------------------------------------------------------------------------
  // Sequences without repetition, listed by first occurrence

  ghost predicate NoDuplicates<T>(s: seq<T>) {
    forall i, j :: 0 <= i < j < |s| ==> s[i] != s[j]
  }

  /** The position where `x` first occurs in `s`. */
  function IndexOf<T(==)>(s: seq<T>, x: T): (k: nat)
    requires x in s
    ensures k < |s| && s[k] == x
    ensures forall i :: 0 <= i < k ==> s[i] != x
  {
    if s[0] == x then 0 else 1 + IndexOf(s[1..], x)
  }

  /** Reference definition: position `k` of `s` is kept iff `s[k]` does not occur
      in `s[..k]`. */
  function FirstOccurrences<T(==)>(s: seq<T>): seq<T>
  {
    if s == [] then []
    else
      var init := s[..|s| - 1];
      FirstOccurrences(init) + (if s[|s| - 1] in init then [] else [s[|s| - 1]])
  }

  /** Dropping repetitions keeps every element. */
  lemma {:induction false} FirstOccurrencesHas<T>(s: seq<T>, x: T)
    ensures x in FirstOccurrences(s) <==> x in s
  {
    if s != [] {
      var init := s[..|s| - 1];
      FirstOccurrencesHas(init, x);
      assert s == init + [s[|s| - 1]];
    }
  }

  lemma {:induction false} FirstOccurrencesNoDuplicates<T>(s: seq<T>)
    ensures NoDuplicates(FirstOccurrences(s))
  {
    if s != [] {
      var init := s[..|s| - 1];
      FirstOccurrencesNoDuplicates(init);
      FirstOccurrencesHas(init, s[|s| - 1]);
    }
  }

  lemma IndexOfInPrefix<T>(s: seq<T>, m: nat, x: T)
    requires m <= |s| && x in s[..m]
    ensures IndexOf(s, x) == IndexOf(s[..m], x)
  {
    var k := IndexOf(s[..m], x);
    assert s[k] == x;
    var j := IndexOf(s, x);
    assert j <= k;
    assert s[..m][j] == x;
  }

  /** Two kept elements appear in the order of their first occurrence in `s`. */
  lemma {:induction false} FirstOccurrencesPairOrdered<T>(s: seq<T>, i: nat, j: nat)
    requires i < j < |FirstOccurrences(s)|
    ensures FirstOccurrences(s)[i] in s && FirstOccurrences(s)[j] in s
    ensures IndexOf(s, FirstOccurrences(s)[i]) < IndexOf(s, FirstOccurrences(s)[j])
  {
    var n := |s|;
    var init := s[..n - 1];
    var p := FirstOccurrences(init);
    var r := FirstOccurrences(s);
    var x, y := r[i], r[j];
    assert s == init + [s[n - 1]];
    assert r == p + (if s[n - 1] in init then [] else [s[n - 1]]);
    assert x == p[i] && p[i] in p;
    FirstOccurrencesHas(init, x);
    IndexOfInPrefix(s, n - 1, x);
    if j < |p| {
      assert y == p[j] && p[j] in p;
      FirstOccurrencesHas(init, y);
      IndexOfInPrefix(s, n - 1, y);
      FirstOccurrencesPairOrdered(init, i, j);
    } else {
      assert y == s[n - 1] && s[n - 1] !in init;
      assert forall m :: 0 <= m < n - 1 ==> s[m] == init[m];
    }
  }

  /** The kept elements appear in the order of their first occurrence in `s`. */
  lemma FirstOccurrencesOrdered<T>(s: seq<T>)
    ensures forall k :: 0 <= k < |FirstOccurrences(s)| ==> FirstOccurrences(s)[k] in s
    ensures forall i, j :: 0 <= i < j < |FirstOccurrences(s)| ==>
      IndexOf(s, FirstOccurrences(s)[i]) < IndexOf(s, FirstOccurrences(s)[j])
  {
    var r := FirstOccurrences(s);
    forall k | 0 <= k < |r|
      ensures r[k] in s
    {
      assert r[k] in r;
      FirstOccurrencesHas(s, r[k]);
    }
    forall i, j | 0 <= i < j < |r|
      ensures IndexOf(s, r[i]) < IndexOf(s, r[j])
    {
      FirstOccurrencesPairOrdered(s, i, j);
    }
  }

  // ---------------------------------------------------------------------------
  // Callees

  /** The function an instruction calls, if it is a `Call` of a `Function`. */
  function CallTarget(instr: Bytecode): Option<QualifiedFunId> {
    match instr
    case Call(_, _, Function(mid, fid, _), _) => Some(QualifiedFunId(mid, fid))
    case _ => None
  }

  /** Every call target of `code`, repetitions included, in code order. */
  function CallTargets(code: seq<Bytecode>): seq<QualifiedFunId>
  {
    if code == [] then []
    else
      var last := CallTarget(code[|code| - 1]);
      CallTargets(code[..|code| - 1]) + (if last.Some? then [last.value] else [])
  }

  lemma {:induction false} CallTargetsElements(code: seq<Bytecode>)
    ensures forall c :: c in CallTargets(code) <==>
      exists i :: 0 <= i < |code| && CallTarget(code[i]) == Some(c)
  {
    if code != [] {
      var init := code[..|code| - 1];
      CallTargetsElements(init);
      forall c | c in CallTargets(code)
        ensures exists i :: 0 <= i < |code| && CallTarget(code[i]) == Some(c)
      {
        if c in CallTargets(init) {
          var i :| 0 <= i < |init| && CallTarget(init[i]) == Some(c);
          assert code[i] == init[i];
        } else {
          assert CallTarget(code[|code| - 1]) == Some(c);
        }
      }
      forall c | exists i :: 0 <= i < |code| && CallTarget(code[i]) == Some(c)
        ensures c in CallTargets(code)
      {
        var i :| 0 <= i < |code| && CallTarget(code[i]) == Some(c);
        if i < |code| - 1 {
          assert CallTarget(init[i]) == Some(c);
        }
      }
    }
  }

  // ---------------------------------------------------------------------------
  // Spec block allocation

  ghost predicate IsMax(m: nat, ks: set<nat>) {
    m in ks && forall k :: k in ks ==> k <= m
  }

  lemma {:induction false} MaxExists(ks: set<nat>)
    requires ks != {}
    ensures exists m :: IsMax(m, ks)
  {
    var x :| x in ks;
    if ks != {x} {
      MaxExists(ks - {x});
      var m :| IsMax(m, ks - {x});
      assert forall k :: k in ks ==> k == x || k in ks - {x};
      if x <= m {
        assert IsMax(m, ks);
      } else {
        assert IsMax(x, ks);
      }
    } else {
      assert IsMax(x, ks);
    }
  }

  /** The largest key, or 0 when there is none. */
  function MaxOrZero(ks: set<nat>): (m: nat)
    ensures forall k :: k in ks ==> k <= m
    ensures ks == {} ==> m == 0
    ensures ks != {} ==> m in ks
  {
    if ks == {} then 0
    else
      MaxExists(ks);
      var m :| m in ks && forall k :: k in ks ==> k <= m;
      m
  }

  /** The first spec block id a new function target hands out: one more than the
      largest id given by the source, or 1 when the source gives none. */
  function InitialNextFreeSpecBlockId(given: map<SpecBlockId, CodeOffset>): (next: nat)
    ensures next >= 1
    ensures forall id :: id in given ==> id < next
    ensures given == map[] ==> next == 1
    ensures given != map[] ==> next - 1 in given
  {
    MaxOrZero(given.Keys) + 1
  }

  /** The owned data of a function target. The parameter and reference proxy
      maps, the annotations and the rewritten spec are not part of this model. */
  class FunctionTargetData {
    var code: seq<Bytecode>
    var localTypes: seq<Type>
    var returnTypes: seq<Type>
    var locations: map<AttrId, Loc>
    var acquiresGlobalResources: seq<StructId>
    /** Spec blocks given by the source, by id, mapped to their code offset. */
    var givenSpecBlocksOnImpl: map<SpecBlockId, CodeOffset>
    /** Spec blocks added by transformations, by id. */
    var generatedSpecBlocksOnImpl: map<SpecBlockId, Spec>
    var nextFreeSpecBlockId: nat

    /** Every id in use is below the allocator, and no id is both given and
        generated: so the next id handed out is fresh. */
    ghost predicate Valid()
      reads this
    {
      && (forall id :: id in givenSpecBlocksOnImpl ==> id < nextFreeSpecBlockId)
      && (forall id :: id in generatedSpecBlocksOnImpl ==> id < nextFreeSpecBlockId)
      && givenSpecBlocksOnImpl.Keys !! generatedSpecBlocksOnImpl.Keys
    }

    constructor (code: seq<Bytecode>, localTypes: seq<Type>, returnTypes: seq<Type>,
                 locations: map<AttrId, Loc>, acquiresGlobalResources: seq<StructId>,
                 givenSpecBlocks: map<SpecBlockId, CodeOffset>)
      ensures Valid()
      ensures this.code == code && this.localTypes == localTypes && this.returnTypes == returnTypes
      ensures this.locations == locations && this.acquiresGlobalResources == acquiresGlobalResources
      ensures givenSpecBlocksOnImpl == givenSpecBlocks && generatedSpecBlocksOnImpl == map[]
      ensures nextFreeSpecBlockId == InitialNextFreeSpecBlockId(givenSpecBlocks)
    {
      this.code := code;
      this.localTypes := localTypes;
      this.returnTypes := returnTypes;
      this.locations := locations;
      this.acquiresGlobalResources := acquiresGlobalResources;
      givenSpecBlocksOnImpl := givenSpecBlocks;
      generatedSpecBlocksOnImpl := map[];
      nextFreeSpecBlockId := InitialNextFreeSpecBlockId(givenSpecBlocks);
    }

    /** Stores `spec` under the current counter value, which it returns, and
        moves the counter on by one. */
    method AddSpecBlock(spec: Spec) returns (id: SpecBlockId)
      modifies this`nextFreeSpecBlockId, this`generatedSpecBlocksOnImpl
      ensures id == old(nextFreeSpecBlockId) && nextFreeSpecBlockId == old(nextFreeSpecBlockId) + 1
      ensures generatedSpecBlocksOnImpl == old(generatedSpecBlocksOnImpl)[id := spec]
      ensures old(Valid()) ==> Valid()
      ensures old(Valid()) ==> id !in givenSpecBlocksOnImpl && id !in old(generatedSpecBlocksOnImpl)
    {
      id := nextFreeSpecBlockId;
      nextFreeSpecBlockId := nextFreeSpecBlockId + 1;
      generatedSpecBlocksOnImpl := generatedSpecBlocksOnImpl[id := spec];
    }

    /** Each called function once, in the order of its first call in the code. */
    method GetCallees() returns (callees: seq<QualifiedFunId>)
      ensures callees == FirstOccurrences(CallTargets(code))
      ensures NoDuplicates(callees)
      ensures forall c :: c in callees <==>
        exists i :: 0 <= i < |code| && CallTarget(code[i]) == Some(c)
      ensures forall k :: 0 <= k < |callees| ==> callees[k] in CallTargets(code)
      ensures forall i, j :: 0 <= i < j < |callees| ==>
        IndexOf(CallTargets(code), callees[i]) < IndexOf(CallTargets(code), callees[j])
    {
      callees := [];
      for i := 0 to |code|
        invariant callees == FirstOccurrences(CallTargets(code[..i]))
        invariant forall c :: c in callees <==> c in CallTargets(code[..i])
      {
        assert code[..i + 1][..i] == code[..i];
        var targets := CallTargets(code[..i]);
        var target := CallTarget(code[i]);
        assert CallTargets(code[..i + 1]) == targets + (if target.Some? then [target.value] else []);
        if target.Some? {
          var extended := targets + [target.value];
          assert extended[..|extended| - 1] == targets;
          assert FirstOccurrences(extended) ==
            FirstOccurrences(targets) + (if target.value in targets then [] else [target.value]);
        }
        var instr := code[i];
        if instr.Call? && instr.op.Function? {
          var callee := QualifiedFunId(instr.op.moduleId, instr.op.funId);
          assert target == Some(callee);
          if callee !in callees {
            callees := callees + [callee];
          }
          assert callees == FirstOccurrences(CallTargets(code[..i + 1]));
        } else {
          assert target == None;
          assert CallTargets(code[..i + 1]) == targets + [] == targets;
          assert callees == FirstOccurrences(CallTargets(code[..i + 1]));
        }
      }
      assert code[..|code|] == code;
      FirstOccurrencesNoDuplicates(CallTargets(code));
      CallTargetsElements(code);
      FirstOccurrencesOrdered(CallTargets(code));
    }
  }

  // ---------------------------------------------------------------------------
  // The read-only view

  /** What the function target reads from the function's environment. */
  datatype FunctionEnv = FunctionEnv(loc: Loc, isPublic: bool, specOnImpl: map<CodeOffset, Spec>)

  /** The `expect` calls of `get_spec_on_impl` that panic on an unknown block. */
  datatype SpecLookupError = PanicGivenSpecBlockUndefined | PanicGeneratedSpecBlockUndefined

  /** Return types of which none is a reference. */
  function NoReferences(types: seq<Type>): (none: bool)
    ensures none <==> forall i :: 0 <= i < |types| ==> !types[i].Reference?
  {
    if types == [] then true else !types[0].Reference? && NoReferences(types[1..])
  }

  datatype FunctionTarget = FunctionTarget(funcEnv: FunctionEnv, data: FunctionTargetData) {

    /** The location recorded for `attrId`, else the location of the function. */
    function GetBytecodeLoc(attrId: AttrId): (loc: Loc)
      reads data
      ensures attrId in data.locations ==> loc == data.locations[attrId]
      ensures attrId !in data.locations ==> loc == funcEnv.loc
    {
      if attrId in data.locations then data.locations[attrId] else funcEnv.loc
    }

    /** A block id is looked up among the given blocks first (through their
        code offset in the function's spec) and only otherwise among the
        generated ones; a missing block is a panic. */
    function GetSpecOnImpl(blockId: SpecBlockId): (r: Result<Spec, SpecLookupError>)
      reads data
      ensures blockId in data.givenSpecBlocksOnImpl ==>
        var offset := data.givenSpecBlocksOnImpl[blockId];
        r == if offset in funcEnv.specOnImpl then Ok(funcEnv.specOnImpl[offset])
             else Err(PanicGivenSpecBlockUndefined)
      ensures blockId !in data.givenSpecBlocksOnImpl ==>
        r == if blockId in data.generatedSpecBlocksOnImpl then Ok(data.generatedSpecBlocksOnImpl[blockId])
             else Err(PanicGeneratedSpecBlockUndefined)
    {
      if blockId in data.givenSpecBlocksOnImpl then
        var offset := data.givenSpecBlocksOnImpl[blockId];
        if offset in funcEnv.specOnImpl then Ok(funcEnv.specOnImpl[offset])
        else Err(PanicGivenSpecBlockUndefined)
      else if blockId in data.generatedSpecBlocksOnImpl then
        Ok(data.generatedSpecBlocksOnImpl[blockId])
      else
        Err(PanicGeneratedSpecBlockUndefined)
    }

    /** A call ends the lifetime of its reference arguments iff the callee is
        public and returns no reference. */
    function CallEndsLifetime(): (ends: bool)
      reads data
      ensures ends <==> (funcEnv.isPublic &&
        forall i :: 0 <= i < |data.returnTypes| ==> !data.returnTypes[i].Reference?)
    {
      funcEnv.isPublic && NoReferences(data.returnTypes)
    }
  }

  /** In a valid target a generated block is never shadowed by a given one. */
  lemma GeneratedBlockIsFound(t: FunctionTarget, id: SpecBlockId)
    requires t.data.Valid() && id in t.data.generatedSpecBlocksOnImpl
    ensures t.GetSpecOnImpl(id) == Ok(t.data.generatedSpecBlocksOnImpl[id])
  {
  }

  /** A block added through `add_spec_block` is what `get_spec_on_impl` returns
      for the id it handed out, and every block known before stays as it was. */
  method AddThenLookup(t: FunctionTarget, spec: Spec, before: SpecBlockId) returns (id: SpecBlockId)
    requires t.data.Valid()
    modifies t.data
    ensures t.data.Valid()
    ensures t.GetSpecOnImpl(id) == Ok(spec)
    ensures before != id ==> t.GetSpecOnImpl(before) == old(t.GetSpecOnImpl(before))
  {
    id := t.data.AddSpecBlock(spec);
  }
}
