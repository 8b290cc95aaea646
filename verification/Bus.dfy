/** A Modbus device behind the `ModbusReader` trait (src/reader/modbus/mod.rs).
    Which of its calls are answered is arbitrary; an answered call returns the
    true registers at full length. */
module Bus {
  import opened Wrappers
  import opened MetricTypes
  import opened Decoder

  /** One FC01..FC04 request. */
  datatype Request = Request(kind: RegisterType, addr: word, count: int)

  /** What the device holds, and whether it answers the n-th call when that is
      the given request. Bits are 0 or not 0. */
  datatype Bus = Bus(contents: (RegisterType, int) -> word, answers: (nat, Request) -> bool)

  /** A device that holds zeros and answers every call. */
  const Willing := Bus((_, _) => 0, (_, _) => true)

  datatype ReadError =
    | NoAddress
    | Refused
    | BeforeRange
    | OutOfBounds
    | Undecodable(error: DecodeError)
    | EmptyResponse
    | NotProcessed

  type Outcome = Result<Reading, ReadError>

  const MAX_REGISTERS: int := 125
  const MAX_COILS: int := 2000

  /** `validate_register_count` and `validate_coil_count` */
  predicate ValidCount(req: Request) {
    match req.kind
    case Holding | Input => 1 <= req.count <= MAX_REGISTERS
    case Coil | Discrete => 1 <= req.count <= MAX_COILS
  }

  /** Is the n-th call, if it is this request, answered with data? A count the
      reader rejects or an address past 65535 never is. */
  predicate Accepts(bus: Bus, n: nat, req: Request) {
    ValidCount(req) && req.addr + req.count <= 0x1_0000 && bus.answers(n, req)
  }

  function Registers(bus: Bus, kind: RegisterType, addr: int, count: nat): (r: seq<word>)
    ensures |r| == count
    ensures forall i :: 0 <= i < count ==> r[i] == bus.contents(kind, addr + i)
  {
    if count == 0 then [] else Registers(bus, kind, addr, count - 1) + [bus.contents(kind, addr + count - 1)]
  }

  class Device {
    const bus: Bus
    var log: seq<Request>

    constructor (bus: Bus)
      ensures this.bus == bus && log == []
    {
      this.bus := bus;
      log := [];
    }

    method Read(req: Request) returns (r: Result<seq<word>, ReadError>)
      modifies this`log
      ensures log == old(log) + [req]
      ensures r == if Accepts(bus, |old(log)|, req) then Ok(Registers(bus, req.kind, req.addr, req.count)) else Err(Refused)
      ensures r.Ok? ==> 1 <= req.count <= (if req.kind.Coil? || req.kind.Discrete? then 2000 else 125)
      ensures r.Ok? ==> |r.value| == req.count && forall i :: 0 <= i < req.count ==> r.value[i] == bus.contents(req.kind, req.addr + i)
      ensures r.Err? ==> r == Err(Refused)
    {
      if Accepts(bus, |log|, req) {
        r := Ok(Registers(bus, req.kind, req.addr, req.count));
      } else {
        r := Err(Refused);
      }
      log := log + [req];
    }
  }
}
