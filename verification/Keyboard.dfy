/** The keyboard interrupt handler on its static flags and the shared queue. */
module Keyboard {
  import opened KbdModel
  import IoQueue

  const CTRL_L_MAKE: nat := 0x1d
  const CTRL_R_MAKE: nat := 0xe01d
  const SHIFT_L_MAKE: nat := 0x2a
  const SHIFT_R_MAKE: nat := 0x36
  const ALT_L_MAKE: nat := 0x38
  const ALT_R_MAKE: nat := 0xe038
  const CAPSLOCK_MAKE: nat := 0x3a

  class Kbd {
    var ctrlStatus: bool
    var shiftStatus: bool
    var altStatus: bool
    var capslockStatus: bool
    var extStatus: bool
    const kbdBuf: IoQueue.RingQueue
    ghost var typed: string

    /** Everything the model's `System` records. */
    ghost function Abs(): System
      reads this, kbdBuf, kbdBuf.buf
    {
      System(Flags(ctrlStatus, shiftStatus, altStatus, capslockStatus, extStatus), kbdBuf.Abs(), typed)
    }

    ghost predicate Valid()
      reads this, kbdBuf, kbdBuf.buf
    {
      kbdBuf.Valid() && Consistent(Abs())
    }

    constructor ()
      ensures Valid() && fresh(kbdBuf) && fresh(kbdBuf.buf)
      ensures Abs() == Start(kbdBuf.buf[..])
    {
      kbdBuf := new IoQueue.RingQueue();
      ctrlStatus, shiftStatus, altStatus, capslockStatus, extStatus := false, false, false, false, false;
      typed := [];
    }

    method BreakCode(make: nat)
      modifies `ctrlStatus, `shiftStatus, `altStatus
      ensures Abs().flags == OnBreak(old(Abs().flags), make)
    {
      if make == CTRL_L_MAKE || make == CTRL_R_MAKE {
        ctrlStatus := false;
      }
      if make == SHIFT_L_MAKE || make == SHIFT_R_MAKE {
        shiftStatus := false;
      }
      if make == ALT_L_MAKE || make == ALT_R_MAKE {
        altStatus := false;
      }
    }

    method ModifierMake(scancode: nat)
      requires scancode < 0x100
      modifies `ctrlStatus, `shiftStatus, `altStatus, `capslockStatus
      ensures Abs().flags == OnMake(old(Abs().flags), scancode)
    {
      if scancode == CTRL_L_MAKE || scancode == CTRL_R_MAKE {
        ctrlStatus := true;
      } else if scancode == SHIFT_L_MAKE || scancode == SHIFT_R_MAKE {
        shiftStatus := true;
      } else if scancode == ALT_L_MAKE || scancode == ALT_R_MAKE {
        altStatus := true;
      } else if scancode == CAPSLOCK_MAKE {
        capslockStatus := !capslockStatus;
      }
    }

    /** The shift column for a press, from the flags as they were on entry. */
    method Column(scancode: nat, shiftFlag: bool, capslockFlag: bool) returns (shift: nat)
      ensures shift == if (if ShiftAlone(scancode) then shiftFlag else shiftFlag != capslockFlag) then 1 else 0
    {
      shift := 0;
      if ShiftAlone(scancode) {
        if shiftFlag {
          shift := 1;
        }
      } else if shiftFlag && capslockFlag {
        shift := 0;
      } else if shiftFlag || capslockFlag {
        shift := 1;
      } else {
        shift := 0;
      }
    }

    method Emit(c: char)
      requires kbdBuf.Valid()
      modifies kbdBuf, kbdBuf.buf
      ensures kbdBuf.Valid() && kbdBuf.Abs() == PutAll(old(kbdBuf.Abs()), [c])
    {
      ghost var h := kbdBuf.Abs();
      assert PutAll(h, [c]) == IoQueue.Step(h, IoQueue.Put(c));
      var full := kbdBuf.Full();
      if !full {
        kbdBuf.Putchar(c);
      }
    }

    method MakeCode(scancode: nat, shiftFlag: bool, capslockFlag: bool)
      requires Valid() && Known(scancode) && shiftFlag == shiftStatus && capslockFlag == capslockStatus
      modifies this, kbdBuf, kbdBuf.buf
      ensures kbdBuf.Valid() && extStatus == old(extStatus)
      ensures var (k, cs) := OnPress(old(Abs().flags), scancode);
              Abs() == System(k, PutAll(old(Abs().h), cs), old(typed) + cs)
    {
      hide ShiftAlone, OnMake, IoQueue.Step, IoQueue.Consistent;
      var shift := Column(scancode, shiftFlag, capslockFlag);
      var index := scancode % 0x100;
      var curChar := if shift == 1 then KeyMap(index).1 else KeyMap(index).0;
      hide KeyMap;
      if curChar != '\0' {
        Emit(curChar);
        typed := typed + [curChar];
        return;
      }
      ModifierMake(index);
      assert typed + [] == typed;
    }

    /** One interrupt does to flags and queue what `SystemStep` says for a key. */
    method Handler(b: Byte)
      requires Valid()
      modifies this, kbdBuf, kbdBuf.buf
      ensures Valid() && Abs() == SystemStep(old(Abs()), Key(b))
    {
      SystemStepConsistent(Abs(), Key(b));
      hide OnPress, OnBreak, IoQueue.Step, PutAll, Consistent, IoQueue.Consistent;
      var shiftFlag, capslockFlag := shiftStatus, capslockStatus;
      var scancode: nat := b;
      if scancode == 0xe0 {
        extStatus := true;
        return;
      }
      if extStatus {
        scancode := 0xe000 + scancode;
        extStatus := false;
      }
      var breakCode := b >= 0x80;
      if breakCode {
        BreakCode(scancode - 0x80);
        return;
      }
      if 0 < scancode < 0x3b || scancode == ALT_R_MAKE || scancode == CTRL_R_MAKE {
        MakeCode(scancode, shiftFlag, capslockFlag);
      }
    }
  }
}
