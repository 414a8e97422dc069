/** The PLIC device over its register arrays, each operation proved against PlicModel. */
module PlicUnit {
  import opened Bits
  import opened Bitmaps
  import opened PlicModel

  const WORDS: nat := 32

  /** The operation an MMIO write performs on CPU 0's side of the device, if any. */
  datatype MaybeOp = NoOp | DoOp(op: Op)

  function DecodeWrite(offset: nat, value: nat): MaybeOp {
    if offset < 0x1000 then
      if offset / 4 < MAX_IRQS then DoOp(OpPriority(offset / 4, value)) else NoOp
    else if 0x2000 <= offset < 0x2080 then
      if (offset - 0x2000) / 4 < MAX_IRQS / WORD then DoOp(OpEnableWord((offset - 0x2000) / 4, value)) else NoOp
    else if 0x20_0000 <= offset < 0x21_0000 then
      if offset % 0x1000 == 0 then DoOp(OpThreshold(value))
      else if offset % 0x1000 == 4 then DoOp(OpComplete(value % 0x1_0000_0000))
      else NoOp
    else NoOp
  }

  /** The regions as `plic_write` takes offsets apart. */
  lemma DecodeRegions(offset: nat, value: nat)
    ensures 0x2000 <= offset <= 0x2FFF ==>
      DecodeWrite(offset, value)
      == if (offset - 0x2000) / 0x80 == 0 && (offset - 0x2000) % 0x80 / 4 < MAX_IRQS / WORD
         then DoOp(OpEnableWord((offset - 0x2000) % 0x80 / 4, value)) else NoOp
    ensures 0x20_0000 <= offset <= 0x20_FFFF ==>
      DecodeWrite(offset, value)
      == if (offset - 0x20_0000) % 0x1000 == 0 then DoOp(OpThreshold(value))
         else if (offset - 0x20_0000) % 0x1000 == 4 then DoOp(OpComplete(value % 0x1_0000_0000)) else NoOp
  {}

  lemma WordShows(words: seq<nat>, n: nat)
    requires n < |words|
    ensures forall k :: 0 <= k < WORD ==> (Bit(words[n], k) <==> n * WORD + k in BitsOf(words))
  {
    forall k | 0 <= k < WORD ensures Bit(words[n], k) <==> n * WORD + k in BitsOf(words) {
      PlaceOf(n, k);
    }
  }

  lemma PlaceOf(n: nat, k: nat)
    requires k < WORD
    ensures (n * WORD + k) / WORD == n && (n * WORD + k) % WORD == k
  {}

  /** MMIO reads of the context block at offset 4 claim; every other read leaves the state alone. */
  predicate IsClaimRead(offset: nat) {
    0x20_0000 <= offset < 0x21_0000 && offset % 0x1000 == 4
  }

  class PlicDevice {
    const pendingWords: array<nat>
    const claimedWords: array<nat>
    const enableWords: array<nat>
    const priority: array<nat>
    var threshold: nat
    var irqPending: bool
    var currentIrq: nat
    /** Bit MEIP of CPU 0's mip register, and its halted flag. */
    var meip: bool
    var halted: bool

    ghost predicate Valid()
      reads this
    {
      && pendingWords.Length == WORDS && claimedWords.Length == WORDS && enableWords.Length == WORDS
      && priority.Length == MAX_IRQS + 1
      && pendingWords != claimedWords && pendingWords != enableWords && pendingWords != priority
      && claimedWords != enableWords && claimedWords != priority && enableWords != priority
    }

    ghost function State(): (s: Plic)
      reads this, pendingWords, claimedWords, enableWords, priority
      requires Valid()
      ensures WellFormed(s)
    {
      Plic(BitsOf(pendingWords[..]), BitsOf(claimedWords[..]), BitsOf(enableWords[..]),
           priority[..], threshold, meip, currentIrq, halted)
    }

    /** `plic_init` before its enable set-up: nothing pending, every source at priority 1. */
    constructor ()
      ensures Valid()
      ensures fresh(pendingWords) && fresh(claimedWords) && fresh(enableWords) && fresh(priority)
      ensures State().pending == {} && State().claimed == {} && State().enabled == {} && LineOk(State())
      ensures forall irq: nat :: ValidIrq(irq) ==> State().priority[irq] == 1
    {
      pendingWords := new nat[WORDS](_ => 0);
      claimedWords := new nat[WORDS](_ => 0);
      enableWords := new nat[WORDS](_ => 0);
      priority := new nat[MAX_IRQS + 1](i => if 1 <= i < MAX_IRQS then 1 else 0);
      threshold, irqPending, currentIrq, meip, halted := 0, false, 0, false, false;
      new;
      assert pendingWords[..] == claimedWords[..] == enableWords[..];
      ZeroWords(pendingWords[..]);
      WinnerZero(State());
    }

    method PlicIsEnabled(irq: nat) returns (on: bool)
      requires Valid()
      ensures on == (ValidIrq(irq) && irq in State().enabled)
    {
      if irq < 1 || irq >= MAX_IRQS { return false; }
      on := Bit(enableWords[irq / WORD], irq % WORD);
    }

    /** The test every scan applies to a source, priority aside. */
    method IsCandidate(irq: nat) returns (yes: bool)
      requires Valid() && ValidIrq(irq)
      ensures yes == (irq in State().pending && irq !in State().claimed && irq in State().enabled)
    {
      if !Bit(pendingWords[irq / WORD], irq % WORD) { return false; }
      if Bit(claimedWords[irq / WORD], irq % WORD) { return false; }
      yes := PlicIsEnabled(irq);
    }

    /** The arg-max scan shared by `plic_claim` and `plic_update`. */
    method ScanForWinner() returns (winner: nat)
      requires Valid()
      ensures winner == Winner(State())
    {
      var maxPriority := threshold;
      winner := 0;
      for irq := 1 to MAX_IRQS
        invariant winner == Scan(State(), irq)
        invariant maxPriority == if winner == 0 then threshold else priority[winner]
      {
        var candidate := IsCandidate(irq);
        if candidate && priority[irq] > maxPriority {
          maxPriority := priority[irq];
          winner := irq;
        }
      }
    }

    method PlicUpdate()
      requires Valid()
      modifies this`meip, this`currentIrq, this`irqPending, this`halted
      ensures State() == Update(old(State()))
      ensures irqPending == (Winner(old(State())) != 0)
    {
      var maxIrq := ScanForWinner();
      if maxIrq > 0 {
        meip := true;
        currentIrq := maxIrq;
        if halted { halted := false; }
      } else {
        meip := false;
        currentIrq := 0;
      }
      irqPending := maxIrq > 0;
    }

    method PlicSetIrq(irq: nat, level: bool)
      requires Valid()
      modifies pendingWords, this`meip, this`currentIrq, this`irqPending, this`halted
      ensures State() == SetIrq(old(State()), irq, level)
    {
      if irq < 1 || irq >= MAX_IRQS { return; }
      UpdateBit(pendingWords[..], irq, level);
      pendingWords[irq / WORD] := WithBit(pendingWords[irq / WORD], irq % WORD, level);
      var enabled := PlicIsEnabled(irq);
      if enabled { PlicUpdate(); }
    }

    /** Claiming returns the winner, marks it claimed and drops it from pending. */
    method PlicClaim() returns (irq: nat)
      requires Valid()
      modifies claimedWords, pendingWords, this`meip, this`currentIrq, this`irqPending, this`halted
      ensures irq == Winner(old(State()))
      ensures State() == Claim(old(State()))
    {
      irq := ScanForWinner();
      if irq != 0 {
        UpdateBit(claimedWords[..], irq, true);
        UpdateBit(pendingWords[..], irq, false);
        claimedWords[irq / WORD] := WithBit(claimedWords[irq / WORD], irq % WORD, true);
        pendingWords[irq / WORD] := WithBit(pendingWords[irq / WORD], irq % WORD, false);
        PlicUpdate();
      }
    }

    method PlicComplete(irq: nat)
      requires Valid()
      modifies claimedWords, pendingWords, this`meip, this`currentIrq, this`irqPending, this`halted
      ensures State() == Complete(old(State()), irq)
      ensures 1 <= irq < 1023 ==> irq !in State().claimed && irq !in State().pending
    {
      if irq < 1 || irq >= MAX_IRQS { return; }
      UpdateBit(claimedWords[..], irq, false);
      UpdateBit(pendingWords[..], irq, false);
      claimedWords[irq / WORD] := WithBit(claimedWords[irq / WORD], irq % WORD, false);
      pendingWords[irq / WORD] := WithBit(pendingWords[irq / WORD], irq % WORD, false);
      meip := false;
      PlicUpdate();
    }

    method PlicSetEnable(irq: nat, on: bool)
      requires Valid()
      modifies enableWords, this`meip, this`currentIrq, this`irqPending, this`halted
      ensures State() == SetEnable(old(State()), irq, on)
    {
      if irq < 1 || irq >= MAX_IRQS { return; }
      UpdateBit(enableWords[..], irq, on);
      enableWords[irq / WORD] := WithBit(enableWords[irq / WORD], irq % WORD, on);
      PlicUpdate();
    }

    method PlicSetEnableWord(n: nat, value: nat)
      requires Valid()
      modifies enableWords, this`meip, this`currentIrq, this`irqPending, this`halted
      ensures State() == SetEnableWord(old(State()), n, value)
    {
      if n >= MAX_IRQS / WORD { return; }
      UpdateWord(enableWords[..], n, value);
      enableWords[n] := value;
      PlicUpdate();
    }

    method SetThresholdRegister(value: nat)
      requires Valid()
      modifies this`threshold, this`meip, this`currentIrq, this`irqPending, this`halted
      ensures State() == SetThreshold(old(State()), value)
    {
      threshold := Low(value, 3);
      PlicUpdate();
    }

    method SetPriorityRegister(irq: nat, value: nat)
      requires Valid() && irq < MAX_IRQS
      modifies priority
      ensures State() == SetPriority(old(State()), irq, value)
    {
      priority[irq] := Low(value, 3);
    }

    method WriteEnable(targetCpu: nat, wordIndex: nat, value: nat)
      requires Valid()
      modifies enableWords, this`meip, this`currentIrq, this`irqPending, this`halted
      ensures State() == if targetCpu == 0 then SetEnableWord(old(State()), wordIndex, value) else old(State())
    {
      if targetCpu == 0 { PlicSetEnableWord(wordIndex, value); }
    }

    /** A write to the context block of CPU 0. */
    method WriteContext(regOffset: nat, value: nat)
      requires Valid()
      modifies claimedWords, pendingWords
      modifies this`threshold, this`meip, this`currentIrq, this`irqPending, this`halted
      ensures State() == if regOffset == 0 then SetThreshold(old(State()), value)
                         else if regOffset == 4 then Complete(old(State()), value % 0x1_0000_0000) else old(State())
    {
      if regOffset == 0 {
        SetThresholdRegister(value);
      } else if regOffset == 4 {
        PlicComplete(value % 0x1_0000_0000);
      }
    }

    /** `plic_write`: whatever the offset, the effect is that of the decoded operation. Enable
        words of other CPUs are not part of the state. */
    method PlicWrite(offset: nat, value: nat)
      requires Valid()
      modifies enableWords, claimedWords, pendingWords, priority
      modifies this`threshold, this`meip, this`currentIrq, this`irqPending, this`halted
      ensures State() == match DecodeWrite(offset, value) case NoOp => old(State()) case DoOp(op) => Apply(old(State()), op)
    {
      DecodeRegions(offset, value);
      if offset <= 0xFFF {
        var irqIndex := offset / 4;
        if irqIndex < MAX_IRQS { SetPriorityRegister(irqIndex, value); }
      } else if 0x2000 <= offset <= 0x2FFF {
        WriteEnable((offset - 0x2000) / 0x80, (offset - 0x2000) % 0x80 / 4, value);
      } else if 0x20_0000 <= offset <= 0x20_FFFF {
        WriteContext((offset - 0x20_0000) % 0x1000, value);
      }
    }

    /** `plic_read`, claims included. The words of other CPUs, which are not part of the state,
        read as 0 here. */
    method PlicRead(offset: nat) returns (value: nat)
      requires Valid()
      modifies claimedWords, pendingWords, this`meip, this`currentIrq, this`irqPending, this`halted
      ensures IsClaimRead(offset) ==> value == Winner(old(State())) && State() == Claim(old(State()))
      ensures !IsClaimRead(offset) ==> State() == old(State())
      ensures offset == 0x20_0004 ==> value == Winner(old(State())) && State() == Claim(old(State()))
      ensures 0x20_0000 <= offset < 0x21_0000 && offset % 0x1000 == 0 ==> value == State().threshold
      ensures offset / 4 < 1023 ==> value == State().priority[offset / 4]
      ensures 0x1000 <= offset <= 0x107F ==>
        forall k :: 0 <= k < 32 ==> (Bit(value, k) <==> (offset - 0x1000) / 4 * 32 + k in State().pending)
      ensures 0x2000 <= offset < 0x2000 + 4 * 31 ==>
        forall k :: 0 <= k < 32 ==> (Bit(value, k) <==> (offset - 0x2000) / 4 * 32 + k in State().enabled)
    {
      value := 0;
      if offset <= 0xFFF {
        if offset / 4 < MAX_IRQS { value := priority[offset / 4]; }
      } else if 0x1000 <= offset <= 0x107F {
        WordShows(pendingWords[..], (offset - 0x1000) / 4);
        value := pendingWords[(offset - 0x1000) / 4];
      } else if 0x2000 <= offset <= 0x2FFF {
        var targetCpu := (offset - 0x2000) / 0x80;
        var wordIndex := (offset - 0x2000) % 0x80 / 4;
        if targetCpu == 0 && wordIndex < MAX_IRQS / WORD {
          WordShows(enableWords[..], wordIndex);
          value := enableWords[wordIndex];
        }
      } else if 0x20_0000 <= offset <= 0x20_FFFF {
        var regOffset := (offset - 0x20_0000) % 0x1000;
        if regOffset == 0 {
          value := threshold;
        } else if regOffset == 4 {
          value := PlicClaim();
        }
      }
    }
  }

  lemma ZeroWords(words: seq<nat>)
    requires forall i :: 0 <= i < |words| ==> words[i] == 0
    ensures BitsOf(words) == {}
  {
    forall i | 0 <= i < WORD * |words| ensures !BitAt(words, i) { ZeroHasNoBit(i % WORD); }
  }

  lemma {:induction false} ZeroHasNoBit(k: nat)
    ensures !Bit(0, k)
  {
    if k > 0 { ZeroHasNoBit(k - 1); }
  }
}
