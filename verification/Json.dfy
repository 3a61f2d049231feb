/** Nested dictionaries, as calibration data and notes use them. */
module Json {
  datatype Json = Leaf(value: string) | Obj(fields: map<string, Json>)
}
