/** The memory that the configured buffers will take, computed by correcting a total of
    defaults while the parameters are read (checkConfigOptions and doUnitConversion of
    install.py). */
module SgaBuffer {
  import opened Digits

  const KB := 1024
  const MB := 1024 * 1024
  const GB := 1024 * 1024 * 1024

  datatype Buffer = Temp | Data | SharedPool | Log
  datatype Name = OfBuffer(buffer: Buffer) | Other(name: string)

  function Default(b: Buffer): nat {
    match b
    case Temp => 32 * MB
    case Data => 128 * MB
    case SharedPool => 128 * MB
    case Log => 4 * MB
  }

  /** A number followed by G, M or K; anything else counts as nothing. */
  function Parse(value: string): nat {
    if |value| < 2 || !IsDigits(value[..|value| - 1]) then 0
    else
      var count := Number(value[..|value| - 1]);
      match value[|value| - 1]
      case 'G' => count * GB
      case 'M' => count * MB
      case 'K' => count * KB
      case _ => 0
  }

  method DoUnitConversion(name: Name, value: string, total: int) returns (after: int)
    ensures after == match name
                     case OfBuffer(b) => total + Parse(value) - Default(b)
                     case Other(_) => total
  {
    after := total;
    if name.OfBuffer? {
      after := after + Parse(value);
      after := after - Default(name.buffer);
    }
  }

  type Config = seq<(Name, string)>

  /** A dictionary lists no name twice. */
  predicate NoneTwice(config: Config) {
    forall i, j :: 0 <= i < j < |config| ==> config[i].0 != config[j].0
  }

  /** The memory of one buffer: what is configured, or else its default. */
  function Share(config: Config, b: Buffer): nat {
    if config == [] then Default(b)
    else if config[|config| - 1].0 == OfBuffer(b) then Parse(config[|config| - 1].1)
    else Share(config[..|config| - 1], b)
  }

  function Expected(config: Config): nat {
    Share(config, Temp) + Share(config, Data) + Share(config, SharedPool) + Share(config, Log)
  }

  lemma {:induction false} ShareUnset(config: Config, b: Buffer)
    requires forall i :: 0 <= i < |config| ==> config[i].0 != OfBuffer(b)
    ensures Share(config, b) == Default(b)
  {
    if config != [] {
      ShareUnset(config[..|config| - 1], b);
    }
  }

  /** Whatever the order of the parameters, the corrected total is the sum over the four
      buffers of what is configured or else the default; so it is never negative. */
  method CheckConfigOptions(config: Config) returns (total: int)
    requires NoneTwice(config)
    ensures total == Expected(config)
  {
    total := Default(Log) + Default(SharedPool) + Default(Data) + Default(Temp);
    for i := 0 to |config|
      invariant total == Expected(config[..i])
    {
      ghost var before := config[..i];
      assert config[..i + 1][..i] == before;
      if config[i].0.OfBuffer? {
        ShareUnset(before, config[i].0.buffer);
      }
      total := DoUnitConversion(config[i].0, config[i].1, total);
    }
    assert config[..|config|] == config;
  }

  /** The share of a buffer, wherever in the list it is set. */
  lemma {:induction false} ShareIsSetting(config: Config, i: nat, b: Buffer)
    requires NoneTwice(config) && i < |config| && config[i].0 == OfBuffer(b)
    ensures Share(config, b) == Parse(config[i].1)
  {
    var n := |config| - 1;
    if i < n {
      assert config[n].0 != OfBuffer(b);
      ShareIsSetting(config[..n], i, b);
    }
  }
}
