/** lib/config/config.c: the configuration in an EEPROM, followed by its CRC. */
module Configs {
  import opened Folds
  import opened Bytes
  import opened Crc8

  function Saved(eeprom: seq<Byte>, config: seq<Byte>): seq<Byte>
    requires |config| < |eeprom|
  {
    config + [Crc(config, ZERO)] + eeprom[|config| + 1..]
  }

  /** What config_load leaves in memory: the image, or the defaults. */
  function Loaded(eeprom: seq<Byte>, size: nat, defaults: seq<Byte>): seq<Byte>
    requires size < |eeprom|
  {
    if eeprom[size] == Crc(eeprom[..size], ZERO) then eeprom[..size] else defaults
  }

  /** Bits of the image or its CRC flipped. */
  function Corrupted(eeprom: seq<Byte>, error: seq<Byte>): (r: seq<Byte>)
    requires |error| <= |eeprom|
    ensures |r| == |eeprom|
  {
    Zip(Xor, eeprom[..|error|], error) + eeprom[|error|..]
  }

  /** A read of the EEPROM: all of it, or a failure and what it left in the
      buffer. */
  datatype Read = Whole | Broken(left: seq<Byte>)

  function Got(read: Read, stored: seq<Byte>): seq<Byte> {
    if read.Whole? then stored else read.left
  }

  class Config {
    var eeprom: seq<Byte>
    var config: seq<Byte>
    const defaults: seq<Byte>

    ghost predicate Valid()
      reads this
    {
      |defaults| == |config| < |eeprom|
    }

    constructor (eeprom: seq<Byte>, config: seq<Byte>, defaults: seq<Byte>)
      requires |defaults| == |config| < |eeprom|
      ensures Valid() && this.eeprom == eeprom && this.config == config && this.defaults == defaults
    {
      this.eeprom, this.config, this.defaults := eeprom, config, defaults;
    }

    /** config_load.  A failed read of the image is reported and leaves whatever it
        left; a failed read of the CRC is not noticed, and what then stands in
        the variable decides. */
    method Load(image: Read, crc: Read)
      requires Valid() && |Got(image, config)| == |config| && |Got(crc, [ZERO])| == 1
      modifies this`config
      ensures Valid()
      ensures image.Whole? && crc.Whole? ==> config == Loaded(eeprom, |config|, defaults)
      ensures image.Broken? ==> config == image.left
      ensures image.Whole? && crc.Broken? ==>
                config == if crc.left[0] == Crc(eeprom[..|config|], ZERO) then eeprom[..|config|] else defaults
    {
      var size := |config|;
      config := Got(image, eeprom[..size]);
      if image.Broken? {
        return;
      }
      var expected := Crc8Maxim(config);
      var actual := Got(crc, [eeprom[size]])[0];
      if actual != expected {
        config := defaults;
      }
    }

    method Save()
      requires Valid()
      modifies this`eeprom
      ensures Valid() && eeprom == Saved(old(eeprom), config)
    {
      eeprom := config + eeprom[|config|..];
      var crc := Crc8Maxim(config);
      eeprom := eeprom[|config| := crc];
    }
  }

  lemma LoadAfterSave(eeprom: seq<Byte>, config: seq<Byte>, defaults: seq<Byte>)
    requires |config| < |eeprom|
    ensures Loaded(Saved(eeprom, config), |config|, defaults) == config
  {
    assert Saved(eeprom, config)[..|config|] == config;
  }

  lemma StoredSplit(image: seq<Byte>)
    requires image != []
    ensures Crc(image, ZERO) == ZERO <==> image[|image| - 1] == Crc(image[..|image| - 1], ZERO)
  {
    var n := |image| - 1;
    assert image == image[..n] + [image[n]];
    CrcOfStored(image[..n], image[n]);
  }

  /** What a corrupted EEPROM reads as, where image and CRC are. */
  lemma ReadBack(eeprom: seq<Byte>, config: seq<Byte>, error: seq<Byte>) returns (stored: seq<Byte>, after: seq<Byte>)
    requires |config| < |eeprom| && |error| == |config| + 1
    ensures |stored| == |error| && after == Zip(Xor, stored, error)
    ensures stored[|config|] == Crc(stored[..|config|], ZERO)
    ensures var read := Corrupted(Saved(eeprom, config), error);
            read[..|config|] == after[..|config|] && read[|config|] == after[|config|]
  {
    var n := |config|;
    stored := config + [Crc(config, ZERO)];
    after := Zip(Xor, stored, error);
    assert Saved(eeprom, config)[..n + 1] == stored;
    assert stored[..n] == config;
  }

  /** A burst of at most eight flipped bits, or any odd number of them, anywhere
      in the image and its CRC, makes the next load fall back to the defaults. */
  lemma CorruptionFallsBack(eeprom: seq<Byte>, config: seq<Byte>, defaults: seq<Byte>, error: seq<Byte>, a: nat)
    requires |config| < |eeprom| && |error| == |config| + 1
    requires Burst(AllBits(error), a) || Odd(AllBits(error))
    ensures Loaded(Corrupted(Saved(eeprom, config), error), |config|, defaults) == defaults
  {
    var stored, after := ReadBack(eeprom, config, error);
    StoredSplit(stored);
    ErrorDetected(stored, error, a);
    StoredSplit(after);
  }
}
