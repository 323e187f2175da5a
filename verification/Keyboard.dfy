/** The code of the keystroke pipeline: ps2keyboard.c and the two signal handlers, on the process
  table of ProcTable.  Every piece of code between two points where the kernel can be entered is
  proved to be a step of the machine in Pipeline, so that what is proved there about all
  interleavings holds of this code. */
module Keyboard {
  import opened ProcSpec
  import opened Pipeline
  import opened ProcTable

  /** The parts of the machine's state after a keyboard interrupt. */
  lemma KeyParts(s: Sys, scancode: nat, stray: SignedChar, space: Context)
    requires Shape(s.k) && KeyFires(s, scancode)
    ensures var (s', r) := (SysNext(s, Key(scancode, stray, space)), SendStep(s.k, 1, PSIGNAL_KEYSTROKE, space));
      && s'.k == r.0 && s'.lock == s.lock && s'.shellPid == s.shellPid
      && s'.slot == if r.1 == -EBUSY then 0 else KeyWord(scancode, Character(scancode, stray))
  {
  }

  /** ... and after the exit of a handler. */
  lemma ExitParts(s: Sys, space: Context)
    requires Shape(s.k) && s.k.curNext.None? && s.k.cur in s.pcs
    requires s.pcs[s.k.cur].InitExit? || s.pcs[s.k.cur].ShellExit?
    ensures SysNext(s, User(space)) == s.(k := ExitStep(s.k))
  {
  }

  class Machine {
    const table: Table
    const shellPid: int                 // init's shell_pid, once shell.sys has been started
    var lastKeystroke: nat              // of ps2keyboard.c
    var psignalLock: bool               // of init

    ghost var model: Sys

    ghost predicate Valid()
      reads this, table, table.nodes, table.driverTypes
    {
      && table.Valid() && table.model == model.k
      && lastKeystroke == model.slot && psignalLock == model.lock && shellPid == model.shellPid
    }

    /** The processor is about to execute this instruction of a handler. */
    ghost predicate At(pc: Pc)
      reads this
    {
      model.k.curNext.None? && model.k.cur in model.pcs && model.pcs[model.k.cur] == pc
    }

    constructor (table: Table, shellPid: int, ghost s: Sys)
      requires table.Valid() && table.model == s.k && s.slot == 0 && !s.lock && shellPid == s.shellPid
      ensures Valid() && model == s && this.table == table
    {
      this.table, this.shellPid, lastKeystroke, psignalLock, model := table, shellPid, 0, false, s;
    }

    /** The slot is filled, and emptied again if init is busy. */
    method Notify(word: nat, space: Context)
      requires table.Valid()
      modifies `lastKeystroke, table, table.nodes
      ensures table.Valid() && table.model == SendStep(old(table.model), 1, PSIGNAL_KEYSTROKE, space).0
      ensures SendStep(old(table.model), 1, PSIGNAL_KEYSTROKE, space).1 == -EBUSY ==> lastKeystroke == 0
      ensures SendStep(old(table.model), 1, PSIGNAL_KEYSTROKE, space).1 != -EBUSY ==> lastKeystroke == word
    {
      lastKeystroke := word;
      var e := table.PsignalSend(1, PSIGNAL_KEYSTROKE, space);
      if e == -EBUSY {
        lastKeystroke := 0;
      }
    }

    /** irq1_isr.  The test for printable characters always succeeds, because of a misplaced
      parenthesis, so that only the release bit matters. */
    method Irq1Isr(scancode: nat, stray: SignedChar, space: Context)
      requires Valid() && scancode < 0x100
      modifies this, table, table.nodes
      ensures Valid() && model == SysNext(old(model), Key(scancode, stray, space))
    {
      var character := Character(scancode, stray);
      if scancode < 0x80 {
        if lastKeystroke == 0 {
          KeyParts(model, scancode, stray, space);
          model := SysNext(model, Key(scancode, stray, space));
          Notify(KeyWord(scancode, character), space);
        }
      }
    }

    /** ps2_fetch_keystroke, as the shell's handler calls it. */
    method ShellKey(ghost space: Context) returns (keystroke: nat)
      requires Valid() && At(Pc.ShellKey)
      modifies `lastKeystroke, `model
      ensures Valid() && model == SysNext(old(model), User(space))
      ensures model.fetched == old(model).fetched + [keystroke]
    {
      keystroke := lastKeystroke;
      lastKeystroke := 0;
      model := SysNext(model, User(space));
    }

    /** One attempt of init's mutex_acquire. */
    method InitLock(ghost space: Context) returns (acquired: bool)
      requires Valid() && At(Pc.InitLock)
      modifies this
      ensures Valid() && model == SysNext(old(model), User(space))
      ensures if acquired then At(Pc.InitFetch) else model == old(model)
    {
      acquired := !psignalLock;
      if acquired {
        psignalLock := true;
      }
      model := SysNext(model, User(space));
    }

    /** psignal_fetch and the test of the payload in init's handler. */
    method InitFetch(ghost space: Context) returns (psignal: nat, forward: bool)
      requires Valid() && At(Pc.InitFetch) && ReadStep(model.k).1.Word?
      modifies `model, table, table.nodes
      ensures Valid() && model == SysNext(old(model), User(space))
      ensures At(if forward then Pc.InitForward(psignal) else Pc.InitRelease)
      ensures forward <==> psignal % 0x1_0000_0000 == 0x996_1A7A
    {
      var result := table.PsignalRead();
      psignal := result.word;
      forward := ExtractPayload(psignal) == PSIGNAL_KEYSTROKE;
      model := SysNext(model, User(space));
    }

    /** psignal_send in init's handler. */
    method InitForward(psignal: nat, space: Context)
      requires Valid() && At(Pc.InitForward(psignal))
      modifies `model, table, table.nodes
      ensures Valid() && model == SysNext(old(model), User(space))
    {
      var e := table.PsignalSend(shellPid, ExtractPayload(psignal), space);
      model := SysNext(model, User(space));
    }

    /** mutex_release in init's handler. */
    method InitRelease(ghost space: Context)
      requires Valid() && At(Pc.InitRelease)
      modifies this
      ensures Valid() && model == SysNext(old(model), User(space))
    {
      psignalLock := false;
      model := SysNext(model, User(space));
    }

    /** psignal_fetch in the shell's handler. */
    method ShellFetch(ghost space: Context)
      requires Valid() && At(Pc.ShellFetch)
      modifies `model, table, table.nodes
      ensures Valid() && model == SysNext(old(model), User(space)) && At(Pc.ShellKey)
    {
      var result := table.PsignalRead();
      model := SysNext(model, User(space));
    }

    /** exit in either handler. */
    method HandlerExit(ghost space: Context)
      requires Valid() && (At(Pc.InitExit) || At(Pc.ShellExit))
      modifies `model, table, table.nodes
      ensures model == SysNext(old(model), User(space)) && (!model.k.halted ==> Valid())
    {
      ExitParts(model, space);
      ghost var k := ExitStep(table.model);
      model := model.(k := k);
      table.Exit();
      assert table.model == k;
    }

    /** The timer interrupt. */
    method Clock(saved: Context) returns (loaded: Context)
      requires Valid()
      modifies `model, table, table.nodes
      ensures Valid() && model == SysNext(old(model), Event.Clock(saved)) && loaded == Cur(model.k).context
    {
      loaded := table.SwitchTask(saved);
      model := SysNext(model, Event.Clock(saved));
    }
  }
}
