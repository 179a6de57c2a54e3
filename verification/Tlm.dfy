/** The part of the TLM-2.0 generic payload (section 14 of IEEE Std 1666-2011)
    that the simulator uses. */
module Tlm {
  import opened Words

  datatype Command = Read | Write | Ignore

  datatype Phase = BeginReq | EndReq | BeginResp | EndResp

  datatype Response = Incomplete | Ok | AddressError

  /** What the interconnect remembers across one hop: the absolute address and
      the upstream port of the initiator. */
  datatype HopCtx = HopCtx(origAddr: uint64, masterId: nat)

  const BYTE_ENABLED: byte := 0xFF

  /** The attributes of a payload that decide which bytes an access touches. */
  datatype Request = Request(
    command: Command,
    address: uint64,
    length: uint32,
    width: uint32,
    enables: Option<seq<byte>>)

  /** What the C++ needs to avoid dividing by zero: a positive streaming width,
      and byte enables that are absent or nonempty. */
  predicate Legal(q: Request) {
    q.width > 0 && (q.enables.Some? ==> |q.enables.value| > 0)
  }

  /** A payload as the CPU, the cache and the DMA build it: no byte enables and
      a streaming width that covers the whole access. */
  predicate Plain(q: Request) {
    q.enables.None? && q.width >= q.length && q.width > 0
  }

  /** tlm_generic_payload: a mutable object handed by reference along the path. */
  class GenericPayload {
    var command: Command
    var address: uint64
    var data: array<byte>
    var length: uint32
    var width: uint32
    var enables: Option<seq<byte>>
    var response: Response
    var hop: Option<HopCtx>
    var refs: nat

    constructor (command: Command, address: uint64, data: array<byte>, length: uint32, width: uint32)
      ensures this.command == command && this.address == address && this.data == data
      ensures this.length == length && this.width == width && this.enables == None
      ensures response == Incomplete && hop == None && refs == 0
    {
      this.command, this.address, this.data := command, address, data;
      this.length, this.width, this.enables := length, width, None;
      response, hop, refs := Incomplete, None, 0;
    }

    method Acquire()
      modifies this`refs
      ensures refs == old(refs) + 1
    {
      refs := refs + 1;
    }

    function Attributes(): Request
      reads this
    {
      Request(command, address, length, width, enables)
    }

    predicate WellFormed()
      reads this
    {
      Legal(Attributes()) && length <= data.Length
    }
  }
}
