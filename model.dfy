/**
 * The exporter's data model: the classification enums, a sample, the
 * configuration of one sample, the configuration of a location and the
 * measurement one poll produces. Floating-point values are exact reals.
 */
module Model {

  datatype EntityType = Invalid | Tariff | Zone | Device

  datatype MetricType = Invalid | Counter | Gauge

  datatype SampleType =
    | Invalid
    | ElectricityConsumption
    | ElectricityProduction
    | GasConsumption
    | Temperature
    | Pressure
    | Flow
    | Humidity
    | Time

  /** One named reading, tagged with what it measures. */
  datatype Sample = Sample(
    entityType: EntityType,
    entityName: string,
    sampleType: SampleType,
    sampleName: string,
    metricType: MetricType,
    value: real)
  {
    /** Two samples describe the same series when all five descriptive fields agree. */
    predicate SameSeries(other: Sample) {
      && entityType == other.entityType
      && entityName == other.entityName
      && sampleType == other.sampleType
      && sampleName == other.sampleName
      && metricType == other.metricType
    }
  }

  /** What to read for one sample: its description, the menu page it is on,
      the item label on that page and the factor to apply to the raw value. */
  datatype ConfigSample = ConfigSample(
    entityType: EntityType,
    entityName: string,
    sampleType: SampleType,
    sampleName: string,
    metricType: MetricType,
    valueMultiplier: real,
    navigation: string,
    item: string)
  {
    /** The configuration after defaulting: an unset (zero) multiplier means 1.0. */
    function WithDefaults(): (c: ConfigSample)
      ensures c.valueMultiplier != 0.0
      ensures valueMultiplier != 0.0 ==> c == this
      ensures c.(valueMultiplier := valueMultiplier) == this
    {
      if valueMultiplier == 0.0 then this.(valueMultiplier := 1.0) else this
    }
  }

  /** Defaulting a configuration twice is the same as defaulting it once,
      and a zero multiplier becomes exactly 1.0. */
  lemma WithDefaultsIdempotent(c: ConfigSample)
    ensures c.WithDefaults().WithDefaults() == c.WithDefaults()
    ensures c.valueMultiplier == 0.0 ==> c.WithDefaults().valueMultiplier == 1.0
  {
  }

  predicate MultipliersSet(configs: seq<ConfigSample>) {
    forall i :: 0 <= i < |configs| ==> configs[i].valueMultiplier != 0.0
  }

  /** The configuration of one location: where it is and which samples to read. */
  class Config {
    var location: string
    var sampleConfigs: seq<ConfigSample>

    constructor (location: string, sampleConfigs: seq<ConfigSample>)
      ensures this.location == location && this.sampleConfigs == sampleConfigs
    {
      this.location := location;
      this.sampleConfigs := sampleConfigs;
    }

    /** Defaults every sample configuration in place, keeping the list's length,
        order and the location. */
    method SetDefaults()
      modifies this
      ensures location == old(location)
      ensures |sampleConfigs| == |old(sampleConfigs)|
      ensures forall i :: 0 <= i < |sampleConfigs| ==> sampleConfigs[i] == old(sampleConfigs)[i].WithDefaults()
      ensures MultipliersSet(sampleConfigs)
    {
      for i := 0 to |sampleConfigs|
        invariant location == old(location)
        invariant |sampleConfigs| == |old(sampleConfigs)|
        invariant forall j :: 0 <= j < i ==> sampleConfigs[j] == old(sampleConfigs)[j].WithDefaults()
        invariant forall j :: i <= j < |sampleConfigs| ==> sampleConfigs[j] == old(sampleConfigs)[j]
      {
        sampleConfigs := sampleConfigs[i := sampleConfigs[i].WithDefaults()];
      }
    }
  }

  /** The five descriptive fields of the sample are those of its configuration. */
  predicate Describes(s: Sample, sc: ConfigSample) {
    && s.entityType == sc.entityType
    && s.entityName == sc.entityName
    && s.sampleType == sc.sampleType
    && s.sampleName == sc.sampleName
    && s.metricType == sc.metricType
  }

  /** Each sample describes the configuration at the same position. */
  predicate DescribesAll(samples: seq<Sample>, configs: seq<ConfigSample>) {
    |samples| == |configs| && forall i :: 0 <= i < |samples| ==> Describes(samples[i], configs[i])
  }

  lemma DescribesAllAppend(a: seq<Sample>, b: seq<ConfigSample>, c: seq<Sample>, d: seq<ConfigSample>)
    requires DescribesAll(a, b) && DescribesAll(c, d)
    ensures DescribesAll(a + c, b + d)
  {
    assert forall i :: |a| <= i < |a + c| ==> (a + c)[i] == c[i - |a|] && (b + d)[i] == d[i - |a|];
  }

  /** The sample built for `sc` from the number read for its item: the
      descriptive fields copied, the value scaled by the multiplier. */
  function SampleFrom(sc: ConfigSample, read: real): Sample {
    Sample(sc.entityType, sc.entityName, sc.sampleType, sc.sampleName, sc.metricType, read * sc.valueMultiplier)
  }

  /** The source tag every measurement carries. */
  const MeasurementSource: string := "jarvis-alpha-innotec-exporter"

  /** The result of one poll. The identifier and the timestamp are supplied by
      the caller (they come from a random generator and the clock). */
  datatype Measurement = Measurement(
    id: string,
    source: string,
    location: string,
    samples: seq<Sample>,
    measuredAtTime: int)
}
