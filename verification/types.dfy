/**
 * Shared configuration types of the chamber controller
 * (MushroomChamberController/src/mushroom_types.h).
 */
module Types {

  /** An 8-bit colour channel. */
  type Byte = x: int | 0 <= x < 256

  /** FastLED's CRGB colour: one byte per channel. */
  datatype Crgb = Crgb(r: Byte, g: Byte, b: Byte)

  /** CRGB::Black. */
  const Black: Crgb := Crgb(0, 0, 0)

  /** One set of sensor readings: %RH, degrees C and hPa. */
  datatype Reading = Reading(humidity: real, temperature: real, pressure: real)

  /**
   * Targets and tolerances of one growth phase. Sensor quantities are
   * modelled as reals (the source uses `float`); light hours are plain ints.
   */
  datatype PhaseConfig = PhaseConfig(
    targetTemperature: real,
    temperatureTolerance: real,
    targetHumidity: real,
    humidityTolerance: real,
    targetPressure: real,
    pressureTolerance: real,
    lightStartHour: int,
    lightEndHour: int,
    lightColor: Crgb)
}
