/** The 8-bit PWM duty-cycle register of the EMC2301 fan controller. */
module Register {

  /** Largest value of the 8-bit PWM register: the fan at 100%. */
  const RegisterMax: int := 255
}
