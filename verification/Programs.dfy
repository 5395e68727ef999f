/** Reasoning about a machine program one instruction at a time. */
module Programs {
  import opened Word
  import opened MainMemory
  import opened Runs
  import opened Isa
  import opened Assembly

  datatype Option<+T> = None | Some(value: T)

  /** An assembly listing: the instruction at each address that starts one. */
  type Code = int -> Option<Instr>

  ghost predicate Loaded(m: Bytes, code: Code)
  {
    forall a: int32 :: code(a).Some? ==> At(m, a, code(a).value)
  }

  /** All of the code lies in the addresses that satisfy keep, and m' agrees with m there. */
  ghost predicate Kept(m: Bytes, m': Bytes, code: Code)
  {
    |m'| == |m| &&
    forall a: int32, k: nat :: code(a).Some? && a <= k < a + Length(code(a).value) && k < |m| ==> m'[k] == m[k]
  }

  lemma LoadedFrame(m: Bytes, m': Bytes, code: Code)
    requires Loaded(m, code) && Kept(m, m', code)
    ensures Loaded(m', code)
  {
    forall a: int32 | code(a).Some? ensures At(m', a, code(a).value) {
      var i := code(a).value;
      assert At(m, a, i);
      assert m'[a..a + Length(i)] == m[a..a + Length(i)];
      AtFrame(m, m', a, i);
    }
  }

  /** A run from s0 that has reached s takes one more step, instruction i of the listing at address a. */
  lemma Next(s0: State, s: State, code: Code, a: int32, i: Instr) returns (t: State)
    requires Reaches(Step, s0, s)
    requires Loaded(s.mem, code) && s.pc == a && code(a) == Some(i)
    requires Effect(i, Past(s, i)).Ok?
    ensures Effect(i, Past(s, i)) == Ok(t)
    ensures Reaches(Step, s0, t)
  {
    hide Effect, At;
    t := Do(s, i);
    ReachesTrans(Step, s0, s, t);
  }

  lemma NextLoad(s0: State, s: State, code: Code, a: int32, i: Instr) returns (t: State)
    requires Reaches(Step, s0, s)
    requires Loaded(s.mem, code) && s.pc == a && code(a) == Some(i)
    requires (i.LdBase? || i.LdIdx?) && Accessible(s.mem, Target(i, s))
    ensures t == Past(s, i).(reg := s.reg.Set(i.d, ReadWord(s.mem, Target(i, s))))
    ensures Reaches(Step, s0, t)
  {
    hide Effect, ReadWord, Wrap, Reaches, Loaded, Accessible;
    LoadEffect(i, Past(s, i));
    t := Next(s0, s, code, a, i);
  }

  lemma NextStore(s0: State, s: State, code: Code, a: int32, i: Instr) returns (t: State)
    requires Reaches(Step, s0, s)
    requires Loaded(s.mem, code) && s.pc == a && code(a) == Some(i)
    requires (i.StBase? || i.StIdx?) && Accessible(s.mem, Target(i, s))
    ensures t == Past(s, i).(mem := WriteWord(s.mem, Target(i, s), s.reg.Get(i.s)))
    ensures Reaches(Step, s0, t)
  {
    hide Effect, WriteWord, Wrap, Reaches, Loaded, Accessible;
    StoreEffect(i, Past(s, i));
    t := Next(s0, s, code, a, i);
  }

  lemma Stop(s0: State, s: State, code: Code)
    requires Reaches(Step, s0, s) && Loaded(s.mem, code) && code(s.pc) == Some(Halt)
    ensures HaltsIn(Step, s0, Past(s, Halt))
  {
    StepAt(s, Halt);
    ReachesHalt(Step, s0, s, Past(s, Halt));
  }
}
