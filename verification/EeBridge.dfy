/** The bridge to the emulator: one byte memory, unreachable while offline. */
module EeBridge {
  import opened EeMemory

  class Bridge {
    var mem: Memory
    var online: bool  // a read or write raises BridgeError when false

    constructor (mem: Memory)
      ensures this.mem == mem && online
    {
      this.mem := mem;
      online := true;
    }
  }
}
