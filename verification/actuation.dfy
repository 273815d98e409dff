/**
 * The GPIO boundary shared by both controller builds: instead of calling
 * `digitalWrite`, a control tick returns the pin writes it would perform.
 */
module Actuation {

  /** The four actuator output pins (their numbers differ between builds). */
  datatype Pin = ExhaustFan1 | ExhaustFan2 | InletFan | Humidifier

  /** One `digitalWrite(pin, high ? HIGH : LOW)`. */
  datatype PinWrite = PinWrite(pin: Pin, high: bool)

  /** The writes `setupActuators` performs: every actuator pin driven LOW. */
  const AllLow: seq<PinWrite> :=
    [PinWrite(ExhaustFan1, false), PinWrite(ExhaustFan2, false),
     PinWrite(InletFan, false), PinWrite(Humidifier, false)]
}
