# BNO055 IMU publisher: a Dafny model

This project models the core of a ROS 2 node. The node reads a BNO055 inertial
sensor over I2C and publishes `sensor_msgs/msg/Imu` messages every 10 ms. The
whole node is in `src/bno055_publisher.cpp`. Three pieces of its logic are modelled:

- **Address argument** (`main`). `main` checks that it got exactly two arguments
  (`argc == 3`). It converts the device address with
  `std::stoul(argv[2], nullptr, 16)`, refuses values above 255 and narrows the rest to
  `uint8_t`. The `strtoul` base-16 rules are modelled in full. These are: leading white
  space of the "C" locale, an optional sign, an optional `0x`/`0X` prefix (taken only
  when a hex digit follows), then the longest run of hex digits, with trailing
  characters ignored. A minus sign negates the value modulo 2^64. No digit raises
  `std::invalid_argument`, which `main` catches. A value above `ULONG_MAX` raises
  `std::out_of_range`, which `main` does not catch, so the model has a `Terminated`
  outcome for it. `rclcpp::init` leaves `argv` untouched, so `argc` also counts any
  `--ros-args` options. Any such option therefore makes the count check fail.
- **Covariance set-up** (constructor). A loop over the nine entries fills the three
  covariance arrays of the persistent message `imuMsg_` from three constant variance
  triples. The loop is modelled as a loop over Dafny arrays.
- **Timer tick** (`timer_callback`). It stamps `imuMsg_` with the clock reading and
  the frame id. It then reads acceleration, angular rate and quaternion. Only when all
  three reads succeed does it copy them into the message and publish it. On a
  `std::runtime_error` it calls `reconnect()` once and pauses for one second if that
  returned false.

`Publisher.MinimalPublisher` is the node, a class. Its `imuMsg` is an
`ImuMessage` object whose covariance arrays are `array<real>`. `published` records
every message handed to the publisher. `TimerCallback` is proved against the pure
function `Tick.Step`. `Tick.Run` folds `Step` over a sequence of ticks, and the
multi-tick properties are lemmas about `Run`. Each tick's device answers and clock
reading are an input (`Tick.TickInput`), so the driver acts as an oracle.

Three facts about the code shape the model:

- The constructor loop writes the variances at indices 0, 3 and 6, not on the
  diagonal (see Findings).
- The message is stamped before the reads, also on ticks that fail.
- One persistent message is reused, so a failed tick leaves the new stamp beside the
  previous tick's readings.

## Model

| member | source | states |
|---|---|---|
| `Strtoul.Stoul16` | src/bno055_publisher.cpp:100 | the conversion `std::stoul(..., 16)` performs; a converted value never exceeds `ULONG_MAX` |
| `Strtoul.HexValue` | src/bno055_publisher.cpp:100 | the value of n hex digits, accumulated most significant first, is below 16^n |
| `Strtoul.HexRun` | src/bno055_publisher.cpp:100 | the digits taken are the longest prefix of hex digits: all hex, a prefix of the input, and stopped by a non-digit |
| `Strtoul.HexRunOfDigits` | src/bno055_publisher.cpp:100 | a run of hex digits followed by a non-digit is exactly the run the parser takes |
| `Strtoul.InvalidArgumentIffNoLeadingDigit` | src/bno055_publisher.cpp:100 | `std::invalid_argument` is raised iff no hex digit follows the white space and sign; the `0x` prefix never changes that |
| `Strtoul.ToHexRoundTrip` | src/bno055_publisher.cpp:100 | the hex spelling of any `unsigned long` value converts back to that value, whatever follows that cannot extend it (no hex digit, and no `x`/`X` after a lone "0") |
| `Strtoul.PrefixedRoundTrip` | src/bno055_publisher.cpp:100 | the same with a `0x` or `0X` prefix, whatever non-digit characters follow |
| `Strtoul.SpanOfPrefix` | src/bno055_publisher.cpp:100 | a run of characters with a property, followed by one without it, is exactly the span measured (white space, digits) |
| `Strtoul.LeadingZerosIgnored` | src/bno055_publisher.cpp:100 | leading zeros leave the converted value unchanged |
| `Strtoul.CaseIgnored` | src/bno055_publisher.cpp:100 | upper-case digits `A`-`F` have the same value as their lower-case forms |
| `Strtoul.UnsignedLead` | src/bno055_publisher.cpp:100 | white space and an optional `+` before the digits are skipped, and the value is not negated |
| `Strtoul.PrefixedDigits` | src/bno055_publisher.cpp:100 | an optional `0x`/`0X` prefix before a digit is skipped, and the digits that follow are the run taken |
| `Strtoul.SpelledSubject` | src/bno055_publisher.cpp:100 | the subject of an unsigned spelling is its whole digit run, leading zeros included, and it is not negated |
| `Strtoul.SpellingRoundTrip` | src/bno055_publisher.cpp:100 | every `unsigned long` value converts back from any spelling: leading white space, optional `+`, optional `0x`/`0X`, leading zeros, the digits in either case, then characters that cannot extend them |
| `Strtoul.NegativeWraps` | src/bno055_publisher.cpp:100 | "-m" converts to 2^64 - m for every non-zero m that fits |
| `CommandLine.ParseArgs` | src/bno055_publisher.cpp:91-111 | the argument-count exit is taken iff the count is not three, before the address is parsed; each other exit is characterised by the conversion: "not a proper address" iff no digits, "not valid" iff the value exceeds 255, termination iff it overflows, and otherwise the node starts with the narrowed address, which equals the value (the cast is lossless) |
| `CommandLine.NotAnAddressIffNoLeadingDigit` | src/bno055_publisher.cpp:108-111 | the "not a proper I2C adress" exit is taken iff no hex digit follows the white space and sign |
| `CommandLine.ConvertedAddressAccepted` | src/bno055_publisher.cpp:100-106 | an argument that converts to an 8-bit value is accepted as exactly that address |
| `CommandLine.AddressRoundTrip` | src/bno055_publisher.cpp:100-106 | every 8-bit address spelled in hex, bare or with `0x`/`0X`, is accepted as itself |
| `CommandLine.LargeAddressRefused` | src/bno055_publisher.cpp:101-103 | every value from 256 to `ULONG_MAX` is refused as not valid |
| `CommandLine.AddressSpellingAccepted` | src/bno055_publisher.cpp:100-106 | every 8-bit address is accepted as itself from any spelling: white space, `+`, `0x`/`0X` and leading zeros in front, the digits in either case, characters that cannot extend them behind |
| `CommandLine.LargeSpellingRefused` | src/bno055_publisher.cpp:100-103 | any such spelling of a value from 256 to `ULONG_MAX` (" 0X1FF", "01ff") is refused as not valid |
| `CommandLine.TrailingCharactersIgnored` | src/bno055_publisher.cpp:100-106 | characters after the digits are ignored, so "a0zz" and "a0x" are accepted as 0xA0 |
| `CommandLine.ExampleAccepted` | src/bno055_publisher.cpp:100-106 | "a0" is accepted as 160 |
| `CommandLine.ExampleUpperCase` | src/bno055_publisher.cpp:100-106 | " 0XA0" is accepted as 160 |
| `CommandLine.ExampleTooLarge` | src/bno055_publisher.cpp:101-103 | "1ff" is refused as not valid |
| `CommandLine.ExampleNoDigits` | src/bno055_publisher.cpp:108-111 | "zz" and "" are refused as not an address |
| `CommandLine.NegativeAddressAccepted` | src/bno055_publisher.cpp:100-106 | as written, every address 1..255 is also accepted from some negative input |
| `CommandLine.AllOnesSpelling` | src/bno055_publisher.cpp:100 | `ULONG_MAX` is spelled as sixteen `f`s |
| `CommandLine.ParseArgsSigned` | src/bno055_publisher.cpp:91-111 | corrected address check: anything it accepts came from exactly three arguments, with the bus path passed on unchanged |
| `CommandLine.ParseArgsSignedCorrect` | src/bno055_publisher.cpp:100-106 | the corrected check accepts exactly the inputs whose signed value lies in 0..255, as that value; it agrees with `ParseArgs` on every input without a minus sign |
| `CommandLine.NegativeAddressRefused` | src/bno055_publisher.cpp:100-106 | the corrected check refuses every negative non-zero address |
| `Messages.DefaultImu` | src/bno055_publisher.cpp:81 | a default-constructed message has nine-entry covariance arrays |
| `Covariance.Layout` | src/bno055_publisher.cpp:32-42 | the array the constructor loop produces has nine entries |
| `Covariance.LayoutIsFirstColumn` | src/bno055_publisher.cpp:32-42 | the variances land at indices 0, 3 and 6, all other entries are 0; as a matrix they fill column 0 |
| `Covariance.LayoutSymmetricIff` | src/bno055_publisher.cpp:32-42 | that layout is symmetric iff the y and z variances are 0, and then it is diagonal |
| `Covariance.ShippedLayoutsNotSymmetric` | src/bno055_publisher.cpp:28-42 | with the shipped constants, none of the three arrays is symmetric |
| `Covariance.DiagonalLayout` | src/bno055_publisher.cpp:32-42 | corrected layout: nine entries |
| `Covariance.DiagonalLayoutCorrect` | src/bno055_publisher.cpp:32-42 | the corrected layout puts each variance on its own axis' diagonal entry and is diagonal and symmetric |
| `Tick.Step` | src/bno055_publisher.cpp:46-78 | the header is always overwritten; covariances never change; a message is published iff all three reads succeed, and it holds exactly this tick's readings; on failure the previous readings stay; the reads are made in the order acceleration, gyro, quaternion and stop at the first failure; `reconnect` is called exactly once, last, iff a read failed; the pause happens iff reconnect then failed |
| `Tick.Run` | src/bno055_publisher.cpp:25-26 | the wall timer calling `timer_callback` once per tick: at most one message is published per tick, and the persistent message ends up carrying the last tick's stamp and frame id whether or not it was published |
| `Tick.RunKeepsCovariances` | src/bno055_publisher.cpp:46-78 | after any number of ticks, successful or failed, the covariance arrays are unchanged |
| `Tick.RunPublishesExpected` | src/bno055_publisher.cpp:46-78 | the published stream is exactly one fully assembled message per successful tick, in tick order; earlier failures never hold back a later success |
| `Tick.ExpectedMessages` | src/bno055_publisher.cpp:49-71 | every published message carries the node's frame id, the starting covariances and the stamp of one of the ticks whose reads all succeeded; there are never more messages than ticks |
| `Tick.HealthyDevicePublishesEveryTick` | src/bno055_publisher.cpp:55-71 | with a device that never fails, every tick publishes |
| `Tick.FailingDevicePublishesNothing` | src/bno055_publisher.cpp:72-77 | with a device that always fails, nothing is published |
| `Tick.ExpectedStampsBounded` | src/bno055_publisher.cpp:48 | when the clock never goes back, no published stamp is later than the last tick's clock reading |
| `Tick.ExpectedStampsOrdered` | src/bno055_publisher.cpp:48-71 | the reference stream's stamps never go back when the clock never does |
| `Tick.PublishedStampsOrdered` | src/bno055_publisher.cpp:48-71 | when the clock never goes back, the published stamps never go back either |
| `Publisher.ImuMessage.constructor` | src/bno055_publisher.cpp:81 | a fresh message: zero stamp, empty frame, zero vectors, identity quaternion, zero covariances in three distinct fresh nine-entry arrays |
| `Publisher.MinimalPublisher.constructor` | src/bno055_publisher.cpp:18-43 | after the loop, each covariance array holds `Layout` of its constants and the rest of the message is the default; the frame id is the `frame_id` parameter's value when one is given and "imu_link" (line 84) otherwise; nothing has been published |
| `Publisher.MinimalPublisher.TimerCallback` | src/bno055_publisher.cpp:46-78 | the new message, the device calls and the pause are those of `Tick.Step`; the published log grows by the final message iff all reads succeeded; the covariance arrays are untouched |

## Findings

| source | as written | input that shows it | evidently intended | confidence | as-written member | corrected member |
|---|---|---|---|---|---|---|
| src/bno055_publisher.cpp:32-42 | `i % 3 == 0` puts the three variances at indices 0, 3 and 6. That is column 0 of the row-major 3x3 covariance matrix. | Any construction of the node: index 3, cov(y, x), holds 67.53e-06, while index 1, cov(x, y), and index 4, var(y), hold 0. The matrix is not symmetric. | Variances on the diagonal, at indices 0, 4 and 8: sensor_msgs/Imu documents its covariances as row-major 3x3 matrices about x, y, z | high; not executed | `Covariance.LayoutIsFirstColumn` | `Covariance.DiagonalLayoutCorrect` |
| src/bno055_publisher.cpp:100-106 | `std::stoul` negates a signed input modulo 2^64 before the `> 255` check. | "-ffffffffffffffff" is accepted as address 0x01. | Only addresses 0..255 accepted, as the range check at line 101 means; negative inputs refused | medium; not executed | `CommandLine.NegativeAddressAccepted` | `CommandLine.ParseArgsSignedCorrect` |

The node class keeps the layout as written, since that is what it ships.
The tick lemmas hold for any covariance contents, so they apply unchanged to the
corrected layout.

## Left out

- rclcpp plumbing: `rclcpp::init`, node creation, the publisher and its QoS, the 10 ms wall timer, `spin` and `shutdown`. There is nothing to verify in them. The timer is modelled only as a sequence of ticks (`Tick.Run`), without its period.
- The bootstrap loop at lines 113-125. It is driven by `rclcpp::ok()` and recreates the node every second until shutdown. Because it exits only once `rclcpp::ok()` is false, `rclcpp::spin` at line 124 runs only after shutdown, so as written `timer_callback` never fires; the tick model describes the callback as it would behave if it were called.
- The BNO055 driver, `bno055.hpp`, is not part of this model. Its reads and `reconnect()` are per-tick inputs. So is the device opened by the constructor's `imu_(devDirectory, devAddress)`, which may throw.
- `declare_parameter("frame_id", ...)`: its resolved value is the constructor's argument.
- Logging (`RCLCPP_ERROR`).
- `get_clock()->now()` is an integer nanosecond reading supplied per tick. `sleep_for(1s)` is the boolean `slept`.
- Floating point: readings and covariance constants are `real`, and the constants are the exact decimals written in the source.
- `Strtoul.Stoul16`: assumes a 64-bit `unsigned long` and the "C" locale. It works on the whole argument string. A C string ends at its NUL, but the parse stops at the first non-digit anyway, so the result is the same.
- `Publisher.MinimalPublisher.TimerCallback`: `published` stands for what was handed to `publish`. Transport behaviour after that is not modelled.
