# pyHydrabus bus drivers, modelled in Dafny

pyHydrabus drives a HydraBus board over a serial link. Each driver class puts the firmware in one
binary mode. Each method then writes a short command frame and reads the device's status and data
bytes. This project models seven drivers: I2C, SPI, 1-Wire (with its SWIO debug-register access),
SDIO, eMMC, the NFC reader and SWD. It proves what each operation writes, what it reads, what it
returns and which exception it raises.

## How the model is built

- **Transport** (`transport.dfy`). The serial port is a `Port` object with two fields. `sent` logs
  every byte written. `replies` is the script of bytes the device will send.
  - A read of `n` bytes returns what the script still holds, up to `n`. It returns fewer bytes once
    the script runs dry, as a serial read does on timeout.
  - Every driver method is a Dafny `method` that modifies the port. Its postcondition gives the
    bytes appended to `sent`, the replies it consumed and its result.
- **SWD** sits on the raw-wire layer. That layer is a `Wire` object. It logs byte writes, clock
  pulses and port configuration, and holds one reply queue shared by `read` and `read_bit`.
- **Command frames** (`frames.dfy`) are sequences of fields: literal bytes, or integers laid out by
  `int.to_bytes`.
  - Writing stops at the first integer that does not fit its width. `to_bytes` raises
    OverflowError before that field reaches the port.
  - So integer parameters stay unbounded `int`s, and the OverflowError path is part of every
    contract.
  - A frame decodes back to the fields that were sent, and only those.
- **Exceptions and `None`** are values: `Result<T> = Ok(value) | Raise(error)` and
  `Option<T> = None | Some(value)`.
- **Operations whose control flow depends on the replies** have a pure specification function:
  I2C `scan`, SPI `read` and `write_read`, SWD `read_dp`/`write_dp`.
  - The function returns what is written, the replies left, and the result.
  - The method's postcondition ties the port state to that function.
  - Lemmas and postconditions state the properties of the function.
- **Configuration registers** are `bv8` fields. A setter provably moves only its own bit. The
  register is resent after every setter.
- **Bulk transfers** (`bulk.dfy`) are shared by I2C, SPI and 1-Wire. The opcode `0x10 | (n - 1)`
  carries the payload length.
  - Cutting data into 16-byte pieces and sending each as a bulk transfer delivers exactly the data
    to a device that parses the stream.
  - `split(data, 16)` comes from a helper module (`pyHydrabus/common.py`), which is not part of this
    model. It is modelled as consecutive 16-byte pieces with a shorter last piece, and no piece for
    empty data.

Some behaviour is kept exactly as the code has it:

- I2C `read(0)` still reads one byte followed by a NACK. `range(length - 1)` is empty, and the
  last byte is always read.
- SPI `read` raises TypeError when a transfer is not acknowledged, because it computes
  `bytes += None`. Chip select then stays low.
- SWD `read_ap` returns the RDBUFF value, not the posted AP read.
- The SDIO and eMMC constructors do not configure the port.

## Model

| member | source | states |
|---|---|---|
| Bytes.LittleEndian | pyHydrabus/sdio.py:131 | `v.to_bytes(n, "little")` is exactly `n` bytes |
| Bytes.BigEndian | pyHydrabus/mmc.py:113 | `v.to_bytes(n, "big")` is exactly `n` bytes |
| Bytes.FromLittleEndian | pyHydrabus/swd.py:105 | `int.from_bytes(bs, "little")` is below 256^len(bs) |
| Bytes.FromBigEndian | pyHydrabus/i2c.py:196 | `int.from_bytes(bs, "big")` is below 256^len(bs) |
| Bytes.LittleEndianRoundTrip | pyHydrabus/onewire.py:143 | decoding a little-endian field gives back the value encoded |
| Bytes.FromLittleEndianRoundTrip | pyHydrabus/onewire.py:134 | every little-endian byte string is the encoding of the value it decodes to |
| Bytes.BigEndianRoundTrip | pyHydrabus/i2c.py:112-114 | decoding a big-endian field gives back the value encoded |
| Bytes.FromBigEndianRoundTrip | pyHydrabus/i2c.py:196 | every big-endian byte string is the encoding of the value it decodes to |
| Bytes.ToBytesRoundTrip | pyHydrabus/sdio.py:130-132 | `from_bytes(to_bytes(v, n, o), o) == v` for either byte order |
| Bytes.FromBytesRoundTrip | pyHydrabus/sdio.py:130-132 | `to_bytes(from_bytes(bs, o), len(bs), o) == bs` for either byte order |
| Bytes.BigIsReversedLittle | pyHydrabus/mmc.py:113 | the big-endian layout is the little-endian one reversed |
| Frames.Emit | pyHydrabus/sdio.py:129-131 | a frame is written completely iff every integer field fits its width, and then has the length of its layout |
| Frames.EmitTwo | pyHydrabus/i2c.py:226-227 | an opcode then one integer: the opcode alone when the integer overflows |
| Frames.EmitThree | pyHydrabus/i2c.py:110-114 | an opcode then two integers, written one at a time: the bytes before the first overflowing field |
| Frames.EmitStopsAtOverflow | pyHydrabus/sdio.py:129-131 | when field k overflows, exactly the fields before k are written |
| Frames.DecodeEmit | pyHydrabus/sdio.py:129-131 | a completely written frame decodes, by its layout alone, to the fields sent |
| Frames.EmitDecode | pyHydrabus/sdio.py:129-131 | any byte string that decodes is the frame of what it decodes to, so no two commands share a frame |
| Transport.Status | pyHydrabus/sdio.py:132 | `int.from_bytes(read(1), "little")` is the next reply byte, or 0 when none arrives |
| Transport.Port.WriteFrame | pyHydrabus/sdio.py:129-131 | writes a frame field by field: every byte before the first field that overflows, and true iff every field was written; no reply is consumed |
| Registers.WithFlag | pyHydrabus/i2c.py:256-261 | the flag setter: reading back gives 0 after 0 and 1 after any other value; no other bit moves |
| Registers.WithBusWidth | pyHydrabus/sdio.py:87-95 | 1 and 4 select the bus width, any other value leaves the register unchanged; only bit 0 moves |
| Registers.ConfigCommand | pyHydrabus/i2c.py:235-239 | the configure command keeps the opcode bits and carries the register in the others |
| Bulk.BulkCommand | pyHydrabus/i2c.py:168-175 | the bulk opcode for 1..16 bytes lies in 0x10..0x1F and its low nibble plus one is the count |
| Bulk.ParseBulkCons | pyHydrabus/onewire.py:72-91 | the device parses one bulk transfer in front of a stream as its payload followed by what the stream parses to |
| Bulk.Split | pyHydrabus/onewire.py:58 | the pieces concatenate to the data, each has 1..16 bytes, all but the last have 16, and there are ceil(len/16) of them |
| Bulk.ParseBulkFrames | pyHydrabus/onewire.py:72-91 | a stream of bulk transfers parses back to the concatenated payloads |
| Bulk.SplitDelivers | pyHydrabus/onewire.py:51-59 | writing data as bulk transfers of its 16-byte pieces delivers exactly the data |
| I2CMode.SpeedCommand | pyHydrabus/i2c.py:209-211 | `0x60 OR speed` keeps the opcode bits and carries the speed in bits 0-1 |
| I2CMode.AddressByte | pyHydrabus/i2c.py:193-196 | the probe byte is the 7-bit address shifted left with a clear R/W bit; `from_bytes >> 1` gives the address back |
| I2CMode.WriteReadFrameLayout | pyHydrabus/i2c.py:109-114 | the write-then-read header is 0x08 and the two lengths, each decoding back big-endian |
| I2CMode.Evens | pyHydrabus/i2c.py:148-155 | the bytes kept by `read` are those at even reply positions; their count is half the replies, rounded up |
| I2CMode.ReadCount | pyHydrabus/i2c.py:149-152 | `read(length)` reads `length` bytes, and at least one |
| I2CMode.Probe | pyHydrabus/i2c.py:193-198 | a probe finds a device exactly when the bulk opcode was acked with 0x01 and the address byte with 0x00 |
| I2CMode.ScanFrom | pyHydrabus/i2c.py:191-199 | the scan's addresses ascend and lie in the probed range |
| I2CMode.ScanHead | pyHydrabus/i2c.py:192-198 | the scan from `i` reports `i` iff its probe found a device, and a later address iff the scan from `i + 1` on the replies left reports it |
| I2CMode.ScanFinds | pyHydrabus/i2c.py:192-198 | an address is reported iff its own probe, on the replies left by the earlier probes, found a device |
| I2CMode.ScanResult | pyHydrabus/i2c.py:184-199 | over 1..0x77: reported iff the probe found a device, ascending, in range |
| I2CMode.I2C.constructor | pyHydrabus/i2c.py:41-44 | the register starts at 0 and is sent as `0x40 OR config` |
| I2CMode.I2C.ConfigurePort | pyHydrabus/i2c.py:235-244 | sends `0x40 OR config`; true iff the device answers 0x01 |
| I2CMode.I2C.Start | pyHydrabus/i2c.py:46-54 | sends 0x02; false only on an explicit 0x00 |
| I2CMode.I2C.Stop | pyHydrabus/i2c.py:56-64 | sends 0x03; false only on an explicit 0x00 |
| I2CMode.I2C.ReadByte | pyHydrabus/i2c.py:66-71 | sends 0x04 and returns the next reply byte |
| I2CMode.I2C.SendAck | pyHydrabus/i2c.py:73-82 | sends 0x06; false only on an explicit 0x00 |
| I2CMode.I2C.SendNack | pyHydrabus/i2c.py:84-93 | sends 0x07; false only on an explicit 0x00 |
| I2CMode.I2C.WriteRead | pyHydrabus/i2c.py:95-128 | OverflowError after the bytes so far when a length does not fit two bytes; None on an early 0x00 that has arrived, with the data unsent; when no early status has arrived, nothing is consumed and the data is sent; None when the data is not acked 0x01; otherwise the `read_len` bytes after the ack |
| I2CMode.I2C.Write | pyHydrabus/i2c.py:130-137 | `write_read` with nothing to read: OverflowError, or the data unsent after an early 0x00, or the data sent and its ack consumed |
| I2CMode.I2C.Read | pyHydrabus/i2c.py:139-155 | sends a read and an ACK per byte but the last, which gets a NACK; returns the data bytes, skipping the statuses |
| I2CMode.I2C.BulkWrite | pyHydrabus/i2c.py:157-182 | ValueError with no I/O for 0 or more than 16 bytes; the data only after an 0x01 ack; one status byte per data byte |
| I2CMode.I2C.Scan | pyHydrabus/i2c.py:184-199 | writes, consumes and returns what `ScanFrom` describes |
| I2CMode.I2C.ScanOne | pyHydrabus/i2c.py:192-198 | one iteration of the scan carries forward the account `ScanFrom` gives of the remaining addresses |
| I2CMode.I2C.ProbeAddress | pyHydrabus/i2c.py:193-198 | one scan iteration behaves as `Probe` describes |
| I2CMode.I2C.SetSpeed | pyHydrabus/i2c.py:201-217 | ValueError above 3 and OverflowError below 0, both with no I/O; otherwise true iff acked 0x01 |
| I2CMode.I2C.ClockStretch | pyHydrabus/i2c.py:219-233 | 0x20 and the timeout in four big-endian bytes; OverflowError when it does not fit; true iff acked |
| I2CMode.I2C.SetPullup | pyHydrabus/i2c.py:256-262 | moves bit 2 only, reads back 0 or 1, and resends the register |
| SPIMode.OpWith | pyHydrabus/spi.py:74-76 | `base OR param` for a parameter that fits a byte keeps the opcode bits |
| SPIMode.CsCommands | pyHydrabus/spi.py:74-76 | chip select low is 0x02, high is 0x03 |
| SPIMode.WriteReadFrameLayout | pyHydrabus/spi.py:123-129 | the header is `0x04 OR drive_cs` and the two lengths, each decoding back big-endian |
| SPIMode.Filler | pyHydrabus/spi.py:182 | `b"\xff" * n` is n bytes of 0xFF |
| SPIMode.Transfer | pyHydrabus/spi.py:177-183 | the bytes `read`'s loop returns are never more than requested |
| SPIMode.TransferPieces | pyHydrabus/spi.py:177-183 | a completed read issues exactly the bulk transfers of the 16-byte pieces of the filler |
| SPIMode.TransferLength | pyHydrabus/spi.py:177-186 | when every transfer is answered in full, `read` returns exactly `read_len` bytes |
| SPIMode.WriteReadReply | pyHydrabus/spi.py:131-150 | after the header: never more than `read_len` bytes back; nothing or exactly the data written; data comes back only after an immediate 0x01 with no data, or after an empty first answer |
| SPIMode.WriteReadExchange | pyHydrabus/spi.py:109-150 | OverflowError iff drive_cs is not a byte or a length does not fit two bytes; data comes back only after an immediate 0x01 with no data, or after an empty first answer; never more than `read_len` bytes |
| SPIMode.WriteReadReplyCases | pyHydrabus/spi.py:131-150 | an early 0x00: None, that byte consumed; an early 0x01 with no data: the `read_len` replies after it; no early answer: the data is sent, and the `read_len` replies after an 0x01 ack come back, else None with the ack consumed; any other early answer: None, nothing sent |
| SPIMode.WriteReadExchangeReply | pyHydrabus/spi.py:109-150 | when the header fits, exactly the header bytes followed by what `WriteReadReply` writes, with its replies left and its result |
| SPIMode.SPI.constructor | pyHydrabus/spi.py:54-58 | register 0b010, chip select 1, register sent as `0x80 OR config` |
| SPIMode.SPI.ConfigurePort | pyHydrabus/spi.py:206-215 | sends `0x80 OR config`; true iff acked 0x01 |
| SPIMode.SPI.SetCs | pyHydrabus/spi.py:67-80 | sends `0x02 OR mode`; the cached chip select changes only on an 0x01 ack; OverflowError with no I/O when the mode is not a byte |
| SPIMode.SPI.BulkWrite | pyHydrabus/spi.py:82-107 | ValueError with no I/O for 0 or more than 16 bytes; the data only after an 0x01 ack; the bytes clocked in |
| SPIMode.SPI.WriteRead | pyHydrabus/spi.py:109-150 | behaves as `WriteReadExchange` describes |
| SPIMode.SPI.ReadReply | pyHydrabus/spi.py:131-150 | behaves as `WriteReadReply` describes |
| SPIMode.SPI.Write | pyHydrabus/spi.py:152-161 | `write_read` with nothing to read; only its exception is visible |
| SPIMode.SPI.Read | pyHydrabus/spi.py:163-186 | with drive_cs 0, chip select goes low before and high after the transfers; TypeError when a transfer is not acked; otherwise what `Transfer` returns |
| SPIMode.SPI.Transfers | pyHydrabus/spi.py:177-183 | the loop writes, consumes and returns what `Transfer` describes |
| SPIMode.SPI.TransferStep | pyHydrabus/spi.py:177-183 | one transfer of the loop: fewer bytes remain; an acked transfer carries the account of `Transfer` forward, a refused one ends the read with None |
| SPIMode.SPI.SetSpeed | pyHydrabus/spi.py:188-204 | ValueError above 7 and OverflowError below 0, both with no I/O; otherwise `0x60 OR speed`, true iff acked |
| SPIMode.SPI.SetPolarity | pyHydrabus/spi.py:227-234 | moves bit 2 only; phase and device unchanged; register resent |
| SPIMode.SPI.SetPhase | pyHydrabus/spi.py:246-253 | moves bit 1 only; polarity and device unchanged; register resent |
| SPIMode.SPI.SetDevice | pyHydrabus/spi.py:265-272 | restarts from the default register: polarity 0 and phase 1 whatever they were, device as asked |
| OneWireMode.PullupDefaults | pyHydrabus/onewire.py:30 | the default register has the pull-up on, the SWIO one has it off |
| OneWireMode.SwioWriteFrameLayout | pyHydrabus/onewire.py:140-143 | 0x30, the address byte, then the value decoding back little-endian |
| OneWireMode.OneWire.constructor | pyHydrabus/onewire.py:32-35 | register 0b100, sent as `0x40 OR config` |
| OneWireMode.OneWire.ConfigurePort | pyHydrabus/onewire.py:93-102 | sends `0x40 OR config`; true iff acked 0x01 |
| OneWireMode.OneWire.Reset | pyHydrabus/onewire.py:37-42 | sends 0x02, reads nothing, always true |
| OneWireMode.OneWire.ReadByte | pyHydrabus/onewire.py:44-49 | sends 0x04 and returns the next reply byte |
| OneWireMode.OneWire.BulkWrite | pyHydrabus/onewire.py:72-91 | ValueError with no I/O for 0 or more than 16 bytes; otherwise the opcode and data, then one status byte consumed |
| OneWireMode.OneWire.Write | pyHydrabus/onewire.py:51-59 | one bulk transfer per 16-byte piece, in order, each consuming one status byte |
| OneWireMode.OneWire.WriteChunk | pyHydrabus/onewire.py:58-59 | one iteration of `write`: the next piece's bulk frame is appended and one status byte consumed |
| OneWireMode.OneWire.Read | pyHydrabus/onewire.py:61-70 | n read commands; returns the next n reply bytes |
| OneWireMode.OneWire.SetPullup | pyHydrabus/onewire.py:114-120 | moves bit 2 only, reads back 0 or 1, register resent |
| OneWireMode.OneWire.SwioInit | pyHydrabus/onewire.py:122-124 | the register becomes 0b1000 (pull-up off) and is resent |
| OneWireMode.OneWire.SwioReadReg | pyHydrabus/onewire.py:126-134 | 0x20 and the address; the next four replies read little-endian; OverflowError when the address is not a byte |
| OneWireMode.OneWire.SwioWriteReg | pyHydrabus/onewire.py:136-149 | 0x30, the address, the value in four little-endian bytes; true iff acked; OverflowError after the fields that fit |
| SDIOMode.WithFrequency | pyHydrabus/sdio.py:109-117 | 0 and 1 select the clock, any other value leaves the register; the bus width is unchanged |
| SDIOMode.CommandFrameLayout | pyHydrabus/sdio.py:128-131 | opcode, command index byte, argument decoding back little-endian |
| SDIOMode.CommandFrameBytes | pyHydrabus/sdio.py:129-131 | a command whose fields fit is written completely as the opcode, the command byte and the argument's four little-endian bytes |
| SDIOMode.SDIO.constructor | pyHydrabus/sdio.py:62-64 | register 0 and no I/O |
| SDIOMode.SDIO.ConfigurePort | pyHydrabus/sdio.py:66-75 | sends `0x80 OR config`; true iff acked 0x01 |
| SDIOMode.SDIO.SetBusWidth | pyHydrabus/sdio.py:87-95 | the register as `WithBusWidth` gives it, resent even for a refused value |
| SDIOMode.SDIO.SetFrequency | pyHydrabus/sdio.py:109-117 | the register as `WithFrequency` gives it, resent even for a refused value |
| SDIOMode.SDIO.SendNo | pyHydrabus/sdio.py:119-133 | command 0x04; true iff the status is 1; OverflowError after the fields that fit |
| SDIOMode.SDIO.SendWithResponse | pyHydrabus/sdio.py:135-178 | the command frame, OverflowError after the fields that fit; on status 1 the next `n` bytes, None on any other status |
| SDIOMode.SDIO.SendShort | pyHydrabus/sdio.py:135-156 | command 0x05; the next 4 bytes on status 1, None otherwise |
| SDIOMode.SDIO.SendLong | pyHydrabus/sdio.py:158-178 | command 0x06; the next 16 bytes on status 1, None otherwise |
| SDIOMode.SDIO.Write | pyHydrabus/sdio.py:180-203 | command 0x09 then the data; true iff the status is 1 |
| SDIOMode.SDIO.Read | pyHydrabus/sdio.py:205-225 | command 0x0D; a 512-byte block on status 1, the empty string otherwise |
| MMCMode.BlockFrameLayout | pyHydrabus/mmc.py:110-113 | opcode and block number big-endian, the reverse of its little-endian layout |
| MMCMode.MMC.constructor | pyHydrabus/mmc.py:39-43 | register 0 and no I/O |
| MMCMode.MMC.ConfigurePort | pyHydrabus/mmc.py:45-54 | sends `0x80 OR config`; true iff acked 0x01 |
| MMCMode.MMC.ReadRegister | pyHydrabus/mmc.py:57-75 | the opcode, the status byte skipped, then the next `n` bytes returned |
| MMCMode.MMC.SetBusWidth | pyHydrabus/mmc.py:87-95 | the register as `WithBusWidth` gives it, resent even for a refused value |
| MMCMode.MMC.Cid | pyHydrabus/mmc.py:56-61 | opcode 0x02; 16 bytes after the status, whatever the status |
| MMCMode.MMC.Csd | pyHydrabus/mmc.py:63-68 | opcode 0x03; 16 bytes after the status, whatever the status |
| MMCMode.MMC.ExtCsd | pyHydrabus/mmc.py:70-75 | opcode 0x06; 512 bytes after the status, whatever the status |
| MMCMode.MMC.Write | pyHydrabus/mmc.py:98-119 | opcode 0x05, block number, data; true iff the status is 1; OverflowError when the block number does not fit |
| MMCMode.MMC.Read | pyHydrabus/mmc.py:121-138 | opcode 0x04 and block number; a 512-byte block on status 1, the empty string otherwise |
| NFCMode.ModeCommand | pyHydrabus/nfc.py:53-55 | `0b110 OR value`: 0x06 for ISO 14443A, 0x07 for ISO 15693 |
| NFCMode.RfCommand | pyHydrabus/nfc.py:64-66 | `0b010 OR value`: 0x02 for off, 0x03 for on |
| NFCMode.LengthPrefixed | pyHydrabus/nfc.py:84-86 | the answer and the replies after it together are everything after the length byte |
| NFCMode.LengthPrefixedRoundTrip | pyHydrabus/nfc.py:84-86 | a length byte then that many bytes reads back as exactly the answer |
| NFCMode.NFC.constructor | pyHydrabus/nfc.py:42-45 | mode 0, RF off, no I/O |
| NFCMode.NFC.SetMode | pyHydrabus/nfc.py:51-56 | one command byte, nothing read; the cached mode changes only when the value is a byte, otherwise OverflowError |
| NFCMode.NFC.SetRf | pyHydrabus/nfc.py:62-67 | one command byte, nothing read; the cached RF state changes only when the value is a byte, otherwise OverflowError |
| NFCMode.NFC.ReadAnswer | pyHydrabus/nfc.py:84-86 | reads a length byte and that many bytes, as `LengthPrefixed` describes |
| NFCMode.NFC.Write | pyHydrabus/nfc.py:69-86 | 0x05, CRC flag, data length, data; returns the length-prefixed answer; OverflowError after the fields that fit |
| NFCMode.NFC.WriteBits | pyHydrabus/nfc.py:88-106 | 0x04, the data, the bit count; returns the length-prefixed answer |
| SWDMode.MiddleOnesPopcount | pyHydrabus/swd.py:41-42 | `bin(value & 0b11110).count("1")` counts exactly bits 1 to 4 |
| SWDMode.ApplyDpParity | pyHydrabus/swd.py:40-44 | sets bit 5 iff bits 1-4 hold an odd number of ones, and touches no other bit |
| SWDMode.DpParityEven | pyHydrabus/swd.py:40-44 | with bit 5 clear beforehand, bits 1 to 5 have even parity |
| SWDMode.AddrBits | pyHydrabus/swd.py:97 | `addr & 0b1100` is 0, 4, 8 or 12 for any integer |
| SWDMode.DpRequest | pyHydrabus/swd.py:95-100 | the request is a byte iff 0 <= to_ap < 128; for to_ap 0 or 1: start and park set, stop clear, RnW as asked, APnDP = to_ap, A[3:2] from addr, even parity |
| SWDMode.AckLsbFirst | pyHydrabus/swd.py:101-103 | the ACK is bit0 + 2·bit1 + 4·bit2 of the bits read, the first least significant |
| SWDMode.AckCodes | pyHydrabus/swd.py:101-104 | OK (1), WAIT (2) and FAULT (4) are exactly the bits 100, 010, 001 on the wire |
| SWDMode.ParityByte | pyHydrabus/swd.py:153-157 | 0x01 iff the value has an odd number of ones |
| SWDMode.WriteDpSpec | pyHydrabus/swd.py:117-157 | OverflowError with nothing written when to_ap does not fit, and otherwise only when the value does not fit four bytes; on success the last writes are the value little-endian and its parity; with the status ignored and the ACK read, success iff the value fits |
| SWDMode.WriteDpStartsWithRequest | pyHydrabus/swd.py:130-135 | when `to_ap` fits, the first write is the request byte |
| SWDMode.WriteDpAnswerCases | pyHydrabus/swd.py:139-157 | after the ACK: two clocks first; checked status neither OK nor WAIT: a sync and ValueError, nothing consumed, no data sent; checked WAIT: continues as `WaitSpec`; OK or ignored status: the value and its parity, or OverflowError with nothing more sent |
| SWDMode.WaitCases | pyHydrabus/swd.py:142-146 | on WAIT: a sync, then the ABORT request (DP address 0) with flags 0x1F; its exception propagates, otherwise the outcome is the same write repeated with the status checked |
| SWDMode.WriteDpAcked | pyHydrabus/swd.py:117-157 | a checked `write_dp` acked OK sends exactly the request, two clocks, the value and its parity, and consumes the three ACK replies |
| SWDMode.WriteDpAnswerSpec | pyHydrabus/swd.py:139-157 | after the ACK: consumes no more replies than remain; OverflowError only for a value that does not fit four bytes; success ends in the value and its parity; an ignored status with a fitting value always succeeds |
| SWDMode.WaitSpec | pyHydrabus/swd.py:142-146 | on WAIT: consumes no more replies than remain; OverflowError only for a value that does not fit; success ends in the value and its parity |
| SWDMode.ReadDpSpec | pyHydrabus/swd.py:80-115 | OverflowError iff to_ap does not fit; the request comes first; the value read is below 2^32 |
| SWDMode.ReadDpAnswerSpec | pyHydrabus/swd.py:104-115 | after the ACK: consumes no more replies than remain; never OverflowError; a value read is below 2^32 |
| SWDMode.ReadDpAnswerCases | pyHydrabus/swd.py:104-115 | OK: one sync, four replies consumed, and the value whose little-endian bytes are those four; an ACK neither OK nor WAIT: one sync, nothing consumed, ValueError |
| SWDMode.ReadDpWaitCase | pyHydrabus/swd.py:109-112 | WAIT: a sync, then the ABORT request (DP address 0) with flags 0x1F; its exception propagates, otherwise the result and replies left are those of the repeated `read_dp` |
| SWDMode.ReadDpAcked | pyHydrabus/swd.py:80-108 | a `read_dp` acked OK returns the four bytes after the ACK, read little-endian, and consumes exactly those seven replies |
| SWDMode.SelectValue | pyHydrabus/swd.py:178-182 | SELECT fits 32 bits iff the AP address is a byte, which then sits in the top byte over `bank & 0xF0` |
| SWDMode.SWD.constructor | pyHydrabus/swd.py:34-38 | the raw-wire port is configured with 0xA |
| SWDMode.SWD.Sync | pyHydrabus/swd.py:46-47 | one zero byte |
| SWDMode.SWD.ReadAck | pyHydrabus/swd.py:101-103 | three bits read, least significant first; TypeError when the replies run out |
| SWDMode.SWD.WriteDp | pyHydrabus/swd.py:117-157 | writes, consumes and returns what `WriteDpSpec` describes |
| SWDMode.SWD.WriteDpAnswer | pyHydrabus/swd.py:139-157 | behaves as `WriteDpAnswerSpec` describes |
| SWDMode.SWD.WriteDpAfterWait | pyHydrabus/swd.py:142-146 | behaves as `WaitSpec` describes |
| SWDMode.SWD.ReadDp | pyHydrabus/swd.py:80-115 | writes, consumes and returns what `ReadDpSpec` describes |
| SWDMode.SWD.ReadDpAnswer | pyHydrabus/swd.py:104-115 | behaves as `ReadDpAnswerSpec` describes |
| SWDMode.SWD.ReadAp | pyHydrabus/swd.py:159-187 | write SELECT, then a posted AP read of `bank & 0b1100`, then RDBUFF, whose value is returned; stops at the first exception |
| SWDMode.SWD.WriteAp | pyHydrabus/swd.py:189-213 | write SELECT, then the value to AP register `bank & 0b1100`; stops at the first exception |
| SWDMode.SWD.Abort | pyHydrabus/swd.py:226-233 | exactly a DP write of the flags (0x1F unless given) to ABORT (address 0) |

## Left out

- The `Protocol` base class (`pyHydrabus/protocol.py`) is not part of this model. That covers the
  mode handshake each constructor performs, the serial port itself, and `close`/`timeout`. The
  constructors model only the driver's own register setup.
- The raw-wire layer under SWD (`pyHydrabus/rawwire.py`) is not part of this model. Its `write`,
  `clocks` and port configuration are logged as operations on a wire (`Transport.Wire`), and the
  SWD constructor's `_configure_port` is a `Configure` operation. Its `read` and `read_bit` log
  nothing: they only consume the queue of pending replies.
- `pyHydrabus/common.py` is not part of this model. `split(data, 16)` is modelled by `Bulk.Split`
  as described above.
- I2CMode.I2C.WriteRead: whether the early status has arrived within the zero timeout is an input,
  `arrived`. The clock is not modelled.
- I2CMode.I2C.WriteRead: after an early 0x00 the source returns with the port timeout still at 0,
  without restoring it to blocking. The model has no timeout state, so it does not record this.
- SPIMode.SPI.WriteRead: whether the first answer has arrived within the zero timeout is an input,
  `arrived`. The clock is not modelled.
- SPIMode.Transfer: the exact length of a read is stated only when every transfer is answered in
  full (`SPIMode.TransferLength`). In general only an upper bound is proved, because a short reply
  script makes serial reads return short.
- Logging (`self._logger`), the `print` in the SDIO/eMMC `bus_width` setters and the `print` in
  the SDIO `frequency` setter are left out; they have no effect on the device or on results.
- SWD `bus_init`, `multidrop_init` and `scan_bus` are left out. They are fixed byte sequences
  through the raw-wire `write`/`write_bits`, and `scan_bus` only prints.
- The eMMC driver's `_rf` and `_mode` fields are never read and are left out.
- The expression statements `self._config & 0b111` in the SPI polarity and phase setters have no
  effect and are left out.
- The SPI, I2C, SDIO and eMMC speed and frequency constants are names for register values. Only the
  bounds the code checks are modelled.
