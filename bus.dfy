/** The two-wire bus the driver talks to, as a simulated collaborator: the
    device's answers to single-byte reads are a scripted sequence, consumed
    in order, and every transfer is appended to a log. Only the two
    operations the driver calls are modelled. */
module Bus {
  import opened Bits

  /** One single-byte transfer on the bus, with the 7-bit device address,
      the register address and the byte moved. */
  datatype Access =
    | Read(device: byte, register: byte, value: byte)
    | Write(device: byte, register: byte, value: byte)

  class SimBus {
    /** The device's answers to successive reads, in order. */
    const answers: seq<byte>
    /** How many answers have been consumed. */
    var cursor: nat
    /** Every transfer so far, oldest first. */
    var log: seq<Access>

    constructor (script: seq<byte>)
      ensures answers == script && cursor == 0 && log == []
    {
      answers := script;
      cursor := 0;
      log := [];
    }

    /** `read_byte_data(device, register)`: the next scripted answer. */
    method ReadByteData(device: byte, register: byte) returns (value: byte)
      requires cursor < |answers|
      modifies this
      ensures value == answers[old(cursor)]
      ensures cursor == old(cursor) + 1
      ensures log == old(log) + [Read(device, register, value)]
    {
      value := answers[cursor];
      cursor := cursor + 1;
      log := log + [Read(device, register, value)];
    }

    /** `write_byte_data(device, register, value)`: logged, answers untouched. */
    method WriteByteData(device: byte, register: byte, value: byte)
      modifies this
      ensures cursor == old(cursor)
      ensures log == old(log) + [Write(device, register, value)]
    {
      log := log + [Write(device, register, value)];
    }
  }
}
