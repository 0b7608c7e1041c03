/** The timescale record the header carries. Its decoder lives in a source
    file that is not part of this model, so callers pass it in as a function. */
module Types {

  datatype TimeUnit = FS | PS | NS | US | MS | S

  datatype TimeScale = TimeScale(value: nat, unit: TimeUnit)
}
