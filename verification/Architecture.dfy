/** The state and the effects in which the meaning of a single RV32 instruction is stated. */
module Architecture {
  import H = HartSpec
  import opened FlatMemory
  import opened SparseMemory

  type reg = bv8

  const ZERO: reg := 0
  const RA: reg := 1
  const SP: reg := 2

  /** The architectural state an instruction acts on. */
  datatype Arch = Arch(x: H.RegFile, pc: word, mem: Routed)

  datatype Effect = Next(state: Arch) | Breaks | NotModelled

  function Index(r: reg): H.RegIndex { (r & 0x1F) as int }

  function X(s: Arch, r: reg): word { s.x[Index(r)] }

  /** Register x0 holds zero, as it does in every reachable state. */
  predicate ZeroHardwired(s: Arch) { s.x[0] == 0 }

  /** Write rd and go on at the next instruction, len bytes further. */
  function Write(s: Arch, rd: reg, v: word, len: word): Effect {
    Next(Arch(H.SetReg(s.x, Index(rd), v), H.Forward(s.pc, len), s.mem))
  }

  function Jump(s: Arch, rd: reg, target: word, len: word): Effect {
    Next(Arch(H.SetReg(s.x, Index(rd), H.Forward(s.pc, len)), target, s.mem))
  }

  function Branch(s: Arch, taken: bool, offset: word, len: word): Effect {
    Next(s.(pc := if taken then H.Forward(s.pc, offset) else H.Forward(s.pc, len)))
  }
}
