/** Request validation and task construction: the decision tree of
    `spidevp_onReceive` and the argument check of `spidevp_open`. Given the
    method name and the decoded argument it yields exactly one of: open a
    device, submit a task for a handle, or answer at once. */
module Dispatch {
  import opened Wrappers
  import opened CTypes
  import opened StdValue
  import opened SpiTask

  /** Indeterminate contents of onReceive's locals: `fd` and `task.transfer`
      on the paths that submit without assigning them, and
      `task.responsehandle`, which no path assigns. */
  datatype Uninit = Uninit(fd: int32, transfer: Transfer, response: ResponseHandle)

  /** A heap block the validator allocated and filled: where, and with what. */
  datatype Allocation = Allocation(addr: Addr, bytes: seq<u8>)

  datatype Decision =
    | Open(path: string)
    | Submit(fd: int32, task: Task, alloc: Option<Allocation>)
    | Respond(reply: Reply)

  const SETTERS: set<string> := {"setMode", "setMaxSpeed", "setWordSize"}
  const GETTERS: set<string> := {"getMode", "getMaxSpeed", "getWordSize"}
  const METHODS: set<string> := {"open", "transmit", "close"} + SETTERS + GETTERS

  /** What each set method asks the device for, the value narrowed to the
      union member it is stored in (`mode` and `bits` are uint8_t, `speed` uint64_t). */
  function SetterOp(name: string, value: int64): Op
    requires name in SETTERS
  {
    if name == "setMode" then WrMode(ToU8(value as int))
    else if name == "setMaxSpeed" then WrMaxSpeedHz(ToU64(value as int))
    else WrBitsPerWord(ToU8(value as int))
  }

  /** What each get method asks the device for. */
  function GetterOp(name: string): Op
    requires name in GETTERS
  {
    if name == "getMode" then RdMode
    else if name == "getMaxSpeed" then RdMaxSpeedHz
    else RdBitsPerWord
  }

  /** The outcome of `spidevp_onReceive` up to the hand-off. `stale` stands for
      the uninitialised locals, `buf` for the address malloc returns. */
  function Decide(name: string, arg: Value, stale: Uninit, buf: Addr): (d: Decision)
    ensures name !in METHODS <==> d == Respond(NotImplemented)
    ensures d.Open? <==> name == "open" && arg.String?
    ensures name == "open" ==>
              d == if arg.String? then Open(arg.s) else Respond(IllegalArgument(EXPECTED_STRING))
    ensures name in SETTERS ==>
              d == if IsIntPair(arg)
                   then Submit(ToInt32(arg.items[0].i), Task(SetterOp(name, arg.items[1].i), stale.response), None)
                   else Respond(IllegalArgument(EXPECTED_INT_PAIR))
    ensures name in GETTERS ==>
              d == if arg.Int?
                   then Submit(ToInt32(arg.i), Task(GetterOp(name), stale.response), None)
                   else Respond(IllegalArgument(EXPECTED_INT))
    ensures name == "close" ==> d == Submit(stale.fd, Task(Close, stale.response), None)
    ensures name == "transmit" ==> d == DecideTransmit(arg, stale, buf)
    ensures d.Submit? ==> d.task.response == stale.response
    ensures d.Submit? && d.alloc.Some? ==> name == "transmit"
    ensures d.Respond? ==> d.reply.IllegalArgument? || d.reply.NotImplemented?
  {
    if name == "open" then
      if arg.String? then Open(arg.s) else Respond(IllegalArgument(EXPECTED_STRING))
    else if name == "setMode" then
      if IsIntPair(arg) then Submit(ToInt32(arg.items[0].i), Task(WrMode(ToU8(arg.items[1].i as int)), stale.response), None)
      else Respond(IllegalArgument(EXPECTED_INT_PAIR))
    else if name == "getMode" then
      if arg.Int? then Submit(ToInt32(arg.i), Task(RdMode, stale.response), None)
      else Respond(IllegalArgument(EXPECTED_INT))
    else if name == "setMaxSpeed" then
      if IsIntPair(arg) then Submit(ToInt32(arg.items[0].i), Task(WrMaxSpeedHz(ToU64(arg.items[1].i as int)), stale.response), None)
      else Respond(IllegalArgument(EXPECTED_INT_PAIR))
    else if name == "getMaxSpeed" then
      if arg.Int? then Submit(ToInt32(arg.i), Task(RdMaxSpeedHz, stale.response), None)
      else Respond(IllegalArgument(EXPECTED_INT))
    else if name == "setWordSize" then
      if IsIntPair(arg) then Submit(ToInt32(arg.items[0].i), Task(WrBitsPerWord(ToU8(arg.items[1].i as int)), stale.response), None)
      else Respond(IllegalArgument(EXPECTED_INT_PAIR))
    else if name == "getWordSize" then
      if arg.Int? then Submit(ToInt32(arg.i), Task(RdBitsPerWord, stale.response), None)
      else Respond(IllegalArgument(EXPECTED_INT))
    else if name == "transmit" then
      DecideTransmit(arg, stale, buf)
    else if name == "close" then
      Submit(stale.fd, Task(Close, stale.response), None)
    else
      Respond(NotImplemented)
  }

  /** The `transmit` branch. A map argument is checked field by field; a
      non-map argument is submitted with the stale `fd` and transfer. */
  function DecideTransmit(arg: Value, stale: Uninit, buf: Addr): (d: Decision)
    ensures d.Submit? || d.Respond?
    ensures !arg.Map? ==> d == Submit(stale.fd, Task(Transmit(stale.transfer), stale.response), None)
    ensures d.Respond? ==> arg.Map? && d.reply.IllegalArgument?
    ensures d.Submit? ==> d.task.response == stale.response && d.task.op.Transmit?
    ensures d.Submit? && d.alloc.Some? <==> arg.Map? && d.Submit?
    ensures d.Submit? && d.alloc.Some? ==>
              var a, t := d.alloc.value, d.task.op.transfer;
              && a.addr == buf && t.txBuf == buf && t.rxBuf == buf
              && t.len == ToU32(|a.bytes|)
              && GetStr(arg.entries, "buffer") == Some(UInt8Array(a.bytes))
    ensures d.Submit? && d.alloc.Some? ==>
              var t := d.task.op.transfer;
              && Some(Int(FieldInt(arg.entries, "fd"))) == GetStr(arg.entries, "fd")
              && d.fd == ToInt32(FieldInt(arg.entries, "fd"))
              && t.speedHz == ToU32(FieldInt(arg.entries, "speed") as int)
              && t.delayUsecs == ToU16(FieldInt(arg.entries, "delay") as int)
              && t.bitsPerWord == ToU8(FieldInt(arg.entries, "wordSize") as int)
              && GetStr(arg.entries, "csChange").Some? && GetStr(arg.entries, "csChange").value.Bool?
              && t.csChange == if GetStr(arg.entries, "csChange").value.b then 1 else 0
  {
    if !arg.Map? then
      Submit(stale.fd, Task(Transmit(stale.transfer), stale.response), None)
    else
      var fd := GetStr(arg.entries, "fd");
      if !(fd.Some? && fd.value.Int?) then Respond(IllegalArgument(EXPECTED_FD)) else
      var speed := GetStr(arg.entries, "speed");
      if !(speed.Some? && speed.value.Int?) then Respond(IllegalArgument(EXPECTED_SPEED)) else
      var delay := GetStr(arg.entries, "delay");
      if !(delay.Some? && delay.value.Int?) then Respond(IllegalArgument(EXPECTED_DELAY)) else
      var wordSize := GetStr(arg.entries, "wordSize");
      if !(wordSize.Some? && wordSize.value.Int?) then Respond(IllegalArgument(EXPECTED_WORD_SIZE)) else
      var csChange := GetStr(arg.entries, "csChange");
      if !(csChange.Some? && csChange.value.Bool?) then Respond(IllegalArgument(EXPECTED_CS_CHANGE)) else
      var buffer := GetStr(arg.entries, "buffer");
      if !(buffer.Some? && buffer.value.UInt8Array?) then Respond(IllegalArgument(EXPECTED_BUFFER)) else
      var bytes := buffer.value.bytes;
      var transfer := Transfer(
        txBuf := buf,
        rxBuf := buf,
        len := ToU32(|bytes|),
        speedHz := ToU32(speed.value.i as int),
        delayUsecs := ToU16(delay.value.i as int),
        bitsPerWord := ToU8(wordSize.value.i as int),
        csChange := if csChange.value.b then 1 else 0);
      Submit(ToInt32(fd.value.i), Task(Transmit(transfer), stale.response), Some(Allocation(buf, bytes)))
  }

  /** The integer stored under `key`, or 0 when there is none. */
  function FieldInt(entries: seq<(Value, Value)>, key: string): int64 {
    var v := GetStr(entries, key);
    if v.Some? && v.value.Int? then v.value.i else 0
  }

  // An independent, table-driven statement of the transmit argument check.

  datatype Kind = IntField | BoolField | BytesField

  datatype FieldSpec = FieldSpec(name: string, kind: Kind, message: string)

  /** The fields of a transmit argument, in the order they are checked. */
  const TRANSMIT_FIELDS: seq<FieldSpec> := [
    FieldSpec("fd", IntField, EXPECTED_FD),
    FieldSpec("speed", IntField, EXPECTED_SPEED),
    FieldSpec("delay", IntField, EXPECTED_DELAY),
    FieldSpec("wordSize", IntField, EXPECTED_WORD_SIZE),
    FieldSpec("csChange", BoolField, EXPECTED_CS_CHANGE),
    FieldSpec("buffer", BytesField, EXPECTED_BUFFER)
  ]

  /** A field is present and of the kind its spec names. */
  predicate Passes(entries: seq<(Value, Value)>, f: FieldSpec) {
    var v := GetStr(entries, f.name);
    v.Some? &&
    match f.kind
    case IntField => v.value.Int?
    case BoolField => v.value.Bool?
    case BytesField => v.value.UInt8Array?
  }

  /** Index of the first field that is missing or of the wrong kind. */
  function FirstBadField(entries: seq<(Value, Value)>, fields: seq<FieldSpec>): (r: Option<nat>)
    ensures r.Some? ==> r.value < |fields| && !Passes(entries, fields[r.value])
    ensures r.Some? ==> forall j :: 0 <= j < r.value ==> Passes(entries, fields[j])
    ensures r.None? <==> forall j :: 0 <= j < |fields| ==> Passes(entries, fields[j])
  {
    if |fields| == 0 then None
    else if !Passes(entries, fields[0]) then Some(0)
    else
      match FirstBadField(entries, fields[1..])
      case None => None
      case Some(k) => assert fields[1..][k] == fields[k + 1]; Some(k + 1)
  }

  /** transmit answers with the message of the first failing field in the
      order fd, speed, delay, wordSize, csChange, buffer; it allocates and
      submits only when every field passes. */
  lemma TransmitChecksFieldsInOrder(entries: seq<(Value, Value)>, stale: Uninit, buf: Addr)
    ensures var d := DecideTransmit(Map(entries), stale, buf);
            match FirstBadField(entries, TRANSMIT_FIELDS)
            case Some(k) => d == Respond(IllegalArgument(TRANSMIT_FIELDS[k].message))
            case None => d.Submit? && d.alloc.Some?
  {
    match FirstBadField(entries, TRANSMIT_FIELDS)
    case Some(k) => TransmitRejectsAt(entries, stale, buf, k);
    case None => TransmitAcceptsAllPassing(entries, stale, buf);
  }

  /** A field that fails after all earlier ones passed is the one reported. */
  lemma TransmitRejectsAt(entries: seq<(Value, Value)>, stale: Uninit, buf: Addr, k: nat)
    requires k < |TRANSMIT_FIELDS| && !Passes(entries, TRANSMIT_FIELDS[k])
    requires forall j :: 0 <= j < k ==> Passes(entries, TRANSMIT_FIELDS[j])
    ensures DecideTransmit(Map(entries), stale, buf) == Respond(IllegalArgument(TRANSMIT_FIELDS[k].message))
  {
    if k < 3 {
      RejectsAmongFirstThree(entries, stale, buf, k);
    } else {
      var fields := TRANSMIT_FIELDS;
      assert Passes(entries, fields[0]) && Passes(entries, fields[1]) && Passes(entries, fields[2]);
      RejectsAmongLastThree(entries, stale, buf, k);
    }
  }

  lemma RejectsAmongFirstThree(entries: seq<(Value, Value)>, stale: Uninit, buf: Addr, k: nat)
    requires k < 3 && !Passes(entries, TRANSMIT_FIELDS[k])
    requires forall j :: 0 <= j < k ==> Passes(entries, TRANSMIT_FIELDS[j])
    ensures DecideTransmit(Map(entries), stale, buf) == Respond(IllegalArgument(TRANSMIT_FIELDS[k].message))
  {
    var fields := TRANSMIT_FIELDS;
    if k == 1 {
      assert Passes(entries, fields[0]);
    } else if k == 2 {
      assert Passes(entries, fields[0]) && Passes(entries, fields[1]);
    }
  }

  lemma RejectsAmongLastThree(entries: seq<(Value, Value)>, stale: Uninit, buf: Addr, k: nat)
    requires 3 <= k < |TRANSMIT_FIELDS| && !Passes(entries, TRANSMIT_FIELDS[k])
    requires Passes(entries, TRANSMIT_FIELDS[0]) && Passes(entries, TRANSMIT_FIELDS[1]) && Passes(entries, TRANSMIT_FIELDS[2])
    requires forall j :: 3 <= j < k ==> Passes(entries, TRANSMIT_FIELDS[j])
    ensures DecideTransmit(Map(entries), stale, buf) == Respond(IllegalArgument(TRANSMIT_FIELDS[k].message))
  {
    var fields := TRANSMIT_FIELDS;
    if k == 4 {
      assert Passes(entries, fields[3]);
    } else if k == 5 {
      assert Passes(entries, fields[3]) && Passes(entries, fields[4]);
    }
  }

  /** With every field present and well-typed, transmit allocates and submits. */
  lemma TransmitAcceptsAllPassing(entries: seq<(Value, Value)>, stale: Uninit, buf: Addr)
    requires forall j :: 0 <= j < |TRANSMIT_FIELDS| ==> Passes(entries, TRANSMIT_FIELDS[j])
    ensures var d := DecideTransmit(Map(entries), stale, buf);
            d.Submit? && d.alloc.Some?
  {
    var fields := TRANSMIT_FIELDS;
    assert Passes(entries, fields[0]) && Passes(entries, fields[1]) && Passes(entries, fields[2]);
    assert Passes(entries, fields[3]) && Passes(entries, fields[4]) && Passes(entries, fields[5]);
  }
}
