/** The JSON records the endpoint writes. */
module Model {

  /** Body of a 200 reply: `temp_C`, `temp_F`, `temp_K`. */
  datatype WeatherResponse = WeatherResponse(tempC: real, tempF: real, tempK: real)

  /** Body of every error reply: `message`. */
  datatype ErrorResponse = ErrorResponse(message: string)
}
