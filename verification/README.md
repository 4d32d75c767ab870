# A verified model of the inverter monitor

The system watches a solar inverter. A firmware polls the inverter's Modbus registers and sends
`address value` lines to a server; the server evaluates a user's rules on those values, switches
relays, and keeps the rules in a JSON file; a simulator stands in for the inverter as a Modbus RTU
slave. This project models the parts of it where state, arithmetic or parsing is hard, and proves
what they are relied on for. `dafny verify dfyconfig.toml` checks everything.

Every loop and every object that changes in place is a method or a class proved equal to a function
of its inputs or of its old state; the theorems are about those functions, over all inputs and all
runs.

| modules | what they model |
|---|---|
| `Options`, `Arithmetic`, `Text`, `Numbers` | optional values, products and bytes, characters and decimal numerals, `stoul`, `stod` and the `%g` form of a double as exact decimals |
| `JsonReader`, `Rules`, `RuleReader`, `RuleParser` | the hand-written JSON reader of the rules file: scanners, specification, and the parsers themselves |
| `RulePrinter`, `RoundTrip`, `RulesFile` | both printers of the rule list, and what reading a print gives back |
| `ClockTimes`, `RuleMeaning` | what the texts and names in the file stand for: times of day, numbers, operators, inputs, members, commands |
| `JsonSkip`, `ReaderFrames`, `RuleFrames`, `UnknownMembers`, `RecordPlaces` | skipping values nobody knows, and members nobody knows in a rules file |
| `RuleEngine`, `RuleRuns`, `Thresholds`, `Hysteresis`, `ShippedExample` | the engine, its runs, a rule on readings among any others, and the rule file shipped as an example |
| `Crc16`, `ModbusSlave`, `ModbusStream`, `ModbusRegisters` | checksum, slave, its byte streams, and the register map it refines |
| `ScanScheduler`, `ScanRuns`, `ScanTimes`, `ScanStarvation` | the two register scans of the firmware's loop in wrapping 32-bit time |
| `Eeprom` | the firmware's settings in one byte array |
| `LineAssembly`, `Telemetry` | lines put together from the bytes of many clients, and the values they store |
| `Downsampling` | picking chart points out of a data file |

## What turned out not to hold

The code does not keep some of what it is for in every case. Each of these is proved, with the exact
condition under which it does hold unless said otherwise.

- A rule file that loads need not survive being saved: the data of a variable command is written
  unquoted when it consists of digits, signs and points, and data such as `.5` makes the whole file
  unreadable (`RulesFile.SavingCanLoseTheFile`). Saving keeps a rule list exactly when it is
  well-formed (`RulesFile.SavedRulesReadBack`), and the listing for HTTP, which quotes all data,
  has no such case (`RulesFile.TwoPrintersMeanTheSame`).
- The seconds of a clock text that do not fit an `int` are not read, and the text counts as one without
  seconds; any other impossible hour, minute or second makes it 0 (`ClockTimes.TimeLiteral`).
- Skipping an empty object or array overruns it (`JsonSkip.EmptyContainerIsOverrun`). That a value
  has none inside is sufficient for skipping exactly it, and not necessary
  (`JsonSkip.EmptyCanBeHarmless`).
- The id for a new rule is free unless the two largest 32-bit ids are both taken
  (`RuleRuns.NewIdIsFree`).
- After a reset the scans stand still while the 32-bit clock is in its upper half
  (`ScanScheduler.ResetStalls`), and a delay holds exactly up to 2^31 ms
  (`ScanScheduler.DelayHolds`).
- A scan waits for its interval unless the interval ends at 0 on the 32-bit clock, when it begins again
  at once (`ScanTimes.MonitorReadsOnTime`, `ScanTimes.ControlReadsOnTime`).
- Control registers are starved in two ways: when the monitor interval is less than the register
  spacing plus the longest gap between two passes, and when the computed next monitor time is 0 on
  the 32-bit clock, which the firmware takes for "at once"; otherwise never
  (`ScanStarvation.NoStarvation`).
- The chart points are min(n, m) in number unless a bound of the range is missing, when there are none
  (`Downsampling.ResultIsFairSubsequence`).
- A text with a byte 255 in it loads only up to that byte (`Eeprom.TextLoadsAsSaved`), and a saved
  monitor server is dropped when its port is 0 in 16 bits (`Eeprom.ServerLoadsAsSaved`).
- `partialLines` outlives a connection: a new client with a socket number used before continues the
  unfinished line of the earlier client (`Telemetry.ReusedSocket`).

## Model

| member | source | states |
|---|---|---|
| `JsonReader.SkipWhitespace` | server/rules.hpp:61-65 | the position moves to the first character that is no blank |
| `JsonReader.ConsumeChar` | server/rules.hpp:67-74 | the expected character is consumed behind blanks, or only the blanks are |
| `JsonReader.ParseJsonString` | server/rules.hpp:76-106 | the loop over escapes yields the text, success and position that the specification gives on every input, ended or not |
| `JsonReader.EscapesMean` | server/rules.hpp:90-100 | the two-character escapes stand for the codes that JSON gives them (RFC 8259, section 7) |
| `JsonReader.ParseJsonNumberAsString` | server/rules.hpp:108-145 | sign, digits, fraction and exponent are consumed as specified, and failure leaves the specified position |
| `JsonReader.ParseJsonBool` | server/rules.hpp:147-160 | true and false are recognised, and nothing else |
| `JsonReader.ParseJsonValueAsString` | server/rules.hpp:162-188 | a string, number, boolean or null becomes text, told apart by its first character |
| `JsonReader.SkipJsonValue` | server/rules.hpp:258-315 | the recursive skipper ends on every byte string, reads inside it only, and leaves the position the specification gives |
| `JsonSkip.DepthIsNesting` | server/rules.hpp:258-315 | the depth the skipper descends to on a value without empty containers is the nesting of that value |
| `JsonSkip.SkipOverrun` | server/rules.hpp:258-315 | on any text a skip ends at most the depth it descends to plus one behind the end of the text |
| `JsonSkip.OverrunIsReached` | server/rules.hpp:258-315 | for every depth there is a text of that depth that is overrun by exactly that much |
| `JsonSkip.ValueSkipped` | server/rules.hpp:258-315 | every JSON value (RFC 8259, sections 3 to 7) without an empty container is consumed exactly, at any nesting depth, with any blanks and escapes |
| `JsonSkip.EmptyContainerIsOverrun` | server/rules.hpp:263-294 | an empty object or array, blanks in it or not, is consumed together with more than itself |
| `JsonSkip.EmptyCanBeHarmless` | server/rules.hpp:258-315 | a text with an empty object inside that is consumed exactly all the same |
| `ReaderFrames.SkipSame` | server/rules.hpp:258-315 | on two texts that agree over a stretch, skipping does the same there, position for position |
| `RuleFrames.RuleItemsSame` | server/rules.hpp:556-590 | and so does reading rules, with everything in them |
| `UnknownMembers.UnknownMember` | server/rules.hpp:391-399 | a member loop of a rule, condition or command, in any state, reads a text with a member in front that it does not know as it reads the text without, with positions moved by the length of the member, a comma or the closing brace behind it |
| `UnknownMembers.UnknownMemberIgnored` | server/rules.hpp:545-552 | wherever in a rules file the reader comes to stand inside a rule, condition or command, an unknown member put in there leaves the rules read, or the rejection or exception, unchanged |
| `UnknownMembers.FirstRuleOpens` | server/rules.hpp:556-590 | every file with a rule in it has such a place |
| `RecordPlaces.RecordGivesAPlace` | server/rules.hpp:556-590 | a file that can be read has such a place at each level at which it has a record that reads as anything: in a rule, in a condition, in a command, at a comma or closing brace behind a member |
| `Rules.InputTypeNames` | server/rules.hpp:226-233 | the printed name of an input type is recognised as it |
| `Rules.OperatorNames` | server/rules.hpp:235-244 | the printed operator is recognised as itself |
| `Rules.CommandTypeNames` | server/rules.hpp:246-256 | the printed name of a command type is recognised as it |
| `Numbers.FormIsExact` | server/rules.hpp:668-674 | the printed form of a number with up to six digits denotes that number, in plain and in scientific notation |
| `Numbers.StodOfPrinted` | server/rules.hpp:668-674 | a printed double reads back rounded to six significant digits |
| `Numbers.Round6Exact` | server/rules.hpp:668-674 | so nothing is lost exactly when it has at most six |
| `Numbers.RoundIsNearest` | server/rules.hpp:668-674 | a number with more digits is printed as the nearest one with six, ties to the even sixth digit |
| `Numbers.PlainNotation` | server/rules.hpp:668-674 | a number is printed without an exponent exactly when it is zero or from 0.0001 up to less than a million; an exponent has a sign and two digits or more |
| `Numbers.ScanLexeme` | server/rules.hpp:108-145 | the reader takes any printed number whole |
| `RuleParser.ParseMemberHead` | server/rules.hpp:321-336 | the head of a member loop: closing brace, or name and colon, or malformed |
| `RuleParser.ParseRuleCondition` | server/rules.hpp:317-400 | the member loop of a condition gives the specified record, rejection or exception |
| `RuleParser.ParseRuleCommand` | server/rules.hpp:402-453 | likewise for a command |
| `RuleParser.ParseConditions` | server/rules.hpp:495-519 | likewise for the list of conditions |
| `RuleParser.ParseCommands` | server/rules.hpp:520-544 | likewise for the list of commands |
| `RuleParser.ParseRuleObject` | server/rules.hpp:455-554 | likewise for a rule |
| `RuleParser.FindNextId` | server/rules.hpp:576-582 | the id for a rule without one is one more than the largest so far, in 32 bits, and at least 1 |
| `RuleParser.ParseRulesArray` | server/rules.hpp:556-590 | the whole file is read as specified: rules with ids assigned, or rejected, or an exception |
| `RulePrinter.JsonEscape` | server/registers.hpp:74-90 | each character is escaped in its turn; the local copy of the other printer is the same |
| `RulePrinter.WriteCondition` | server/rules.hpp:632-681 | a condition is written with a literal or a value source, never both |
| `RulePrinter.WriteCommand` | server/rules.hpp:684-730 | a command is written with its optional data and address, a loose comma included |
| `RulePrinter.PrintRules` | server/rules.hpp:618-740 | the printer's loops write exactly the specified text, in the layout of the file or of the HTTP listing |
| `RoundTrip.StringTailOfEscaped` | server/registers.hpp:74-90 | any text, escaped and quoted, is read back as itself, whatever follows |
| `RoundTrip.ConditionRead` | server/rules.hpp:632-681 | reading any printed condition gives the condition without what the printer drops, or the exception of `stod` |
| `RoundTrip.BareScanned` | server/rules.hpp:703-714 | unquoted data made of digits, signs and points is taken as a value exactly when it is one number |
| `RoundTrip.CommandRead` | server/rules.hpp:684-730 | reading any printed command gives it back, or fails exactly for unquoted data that is no number |
| `RoundTrip.RereadIsRead` | server/rules.hpp:556-590 | for every rule list and both layouts, what the reader makes of the print, described rule by rule without text |
| `RulesFile.SavedRulesReadBack` | server/rules.hpp:618-740 | reading what was saved gives exactly the saved rules if and only if they are well-formed |
| `RulesFile.OneRoundTripSettles` | server/rules.hpp:592-740 | whatever was saved, if it can be loaded the result is well-formed and every later round trip is the identity |
| `RulesFile.TwoPrintersMeanTheSame` | server/server_command.hpp:40-134 | both prints read as the same rules, except that the file alone can be unreadable |
| `RulesFile.SavingCanLoseTheFile` | server/rules.hpp:703-714 | a rule that can be loaded and whose saved form is rejected |
| `ClockTimes.ClockIsRead` | server/rules.hpp:190-214 | for any digits, h:m:s is read as the second 3600 h + 60 m + s of the day, and as no time when it is none |
| `ClockTimes.ShortClockIsRead` | server/rules.hpp:190-214 | and h:m as the full minute |
| `ClockTimes.TimeLiteral` | server/rules.hpp:380-384 | the number a time condition gets from such a text: the second as a real, or 0 |
| `ClockTimes.TimeConditionMeans` | server/rules.hpp:827-833 | a time condition written with the text of a second d is read with the number d, and met at the second s of the day exactly when s compares so with d |
| `RuleMeaning.OperatorMeans` | server/rules.hpp:235-244 | the operator of each name, in any case, compares as its name says, and any other name never holds |
| `RuleMeaning.InputMeans` | server/rules.hpp:798-827 | a register or relay is the last value of the address in 16 bits if there is one, a variable its value or 0, the time the second of the day, any other name nothing |
| `RuleMeaning.RegisterMeans` | server/registers.hpp:37-105 | the multiplier of a register is the number its unit begins with, 0.1 of "0.1V", and one where it begins with none |
| `RuleMeaning.ConditionMemberMeans` | server/rules.hpp:337-390 | each member of a condition is stored where its name says |
| `RuleMeaning.CommandMemberMeans` | server/rules.hpp:421-446 | and each member of a command |
| `RuleMeaning.NumeralMeans` | server/rules.hpp:385-389 | every number that can stand in the file, with a sign, a point or an exponent, is the real number it denotes, to commands and to conditions |
| `RuleMeaning.NoNumeralMeans` | server/rules.hpp:891-922 | data without a digit counts as 0 and as the id of no rule |
| `RuleMeaning.OutsideCommandMeans` | server/rules.hpp:888-890 | a command named send or system goes outside with its data and changes nothing else |
| `RuleMeaning.VariableCommandMeans` | server/rules.hpp:916-945 | a command named setVar, addVar or subVar sets, raises or lowers its variable by its number and changes nothing else |
| `RuleMeaning.SwitchCommandMeans` | server/rules.hpp:891-915 | a command named enable or disable switches the first rule with the id and no other |
| `RuleMeaning.UnknownCommandMeans` | server/rules.hpp:954-957 | a command of any other name does nothing |
| `RuleMeaning.VariableIsBalance` | server/variables.hpp:10-29 | behind any list of commands a condition reads of a variable the value set last, or the one from before, and the sum of what was added and subtracted since |
| `RuleEngine.RuleServer.LoadRules` | server/rules.hpp:592-616 | a missing file empties the rules, an unreadable one changes nothing, a readable one replaces them with nothing remembered as met |
| `RuleEngine.RuleServer.SaveRules` | server/rules.hpp:618-740 | the file holds the print of the rules, or stays when it cannot be written |
| `RuleEngine.RuleServer.AddRule` | server/rules.hpp:742-761 | refused for a taken id; otherwise the rule is appended under its own or the next id, not met, and saved |
| `RuleEngine.RuleServer.DeleteRule` | server/rules.hpp:763-772 | all rules with the id go, with what is remembered of them |
| `RuleEngine.RuleServer.SetRuleEnabledInternal` | server/rules.hpp:774-788 | the first rule with the id is switched when it has to be, and disabling forgets that it was met |
| `RuleEngine.RuleServer.SetRuleEnabled` | server/rules.hpp:790-796 | the same, saved when something has changed |
| `RuleEngine.RuleServer.AddToVariable` | server/variables.hpp:10-29 | a variable grows by the value, from zero when it was not set |
| `RuleEngine.RuleServer.ExecuteRuleCommand` | server/rules.hpp:867-957 | each kind of command has its effect on rules, variables and the outside, and reports a change of the rules |
| `RuleEngine.RuleServer.EvaluateConditions` | server/rules.hpp:798-865 | a rule is met when all its conditions have their inputs and hold |
| `RuleEngine.RuleServer.VisitRule` | server/rules.hpp:962-993 | the turn of one rule in the state the earlier rules have left |
| `RuleEngine.RuleServer.EvaluateRules` | server/rules.hpp:959-997 | a pass is the turns of all rules in order, saved when a command changed a rule |
| `RuleEngine.RuleServer.ExecuteRuleCommands` | server/rules.hpp:1007-1022 | the commands of the first rule with the id are executed, and saved when they changed a rule |
| `RuleEngine.VisitKeepsRules` | server/rules.hpp:959-997 | whatever its commands do, a rule's turn changes nothing of the rules but enable flags |
| `RuleRuns.LoadAgrees` | server/rules.hpp:592-616 | loading brings memory and file together, a missing file being an empty list, and changes nothing when the file cannot be read |
| `RuleRuns.SavedAgrees` | server/rules.hpp:618-740 | a save brings file and memory together if and only if the rules are well-formed |
| `RuleRuns.FileAgreesWithMemory` | server/rules.hpp:742-1022 | over any run of all operations, with successful writes and admissible new rules, loading the file would give exactly the rules in memory |
| `RuleRuns.FileIsAnEarlierMemory` | server/rules.hpp:592-740 | whichever writes of a run fail, the file loads as exactly the well-formed rules that were in memory after some step of it |
| `RuleRuns.RulesAreEdgeTriggered` | server/rules.hpp:959-997 | over any run, whichever writes fail and whatever others do to the file, a rule fires exactly when it is seen enabled and met without having been met when last seen |
| `RuleRuns.EveryEdgeFires` | server/rules.hpp:985-993 | each such visit is followed by the firing, with nothing but the rule's commands in between |
| `RuleRuns.FiresOnEdgesOnly` | server/rules.hpp:774-788 | between two firings of a rule it was seen disabled or not met, or disabled, loaded, deleted or added anew |
| `RuleRuns.PassVisitsInOrder` | server/rules.hpp:959-997 | a pass sees every rule once, in order, whatever the commands switch on the way |
| `RuleRuns.NewIdIsFree` | server/rules.hpp:742-752 | the id for a new rule is taken if and only if the two largest ids both are |
| `RuleRuns.NewIdFollows` | server/rules.hpp:576-582 | it is above every id but the largest number there is, and follows one of them or is 1 |
| `RuleRuns.AddKeepsIdsApart` | server/rules.hpp:742-761 | adding a rule to rules with different ids keeps them different, a taken id being refused, if and only if the rule has an id or one of the two largest is free |
| `RuleRuns.DeleteKeepsTheOthers` | server/rules.hpp:763-772 | deleting takes away every rule with the id, wherever it stands, and keeps the others in order |
| `RuleRuns.DeleteUndoesAdd` | server/rules.hpp:742-772 | a rule is appended as it is under its id, and deleting it again gives the old rules back |
| `RuleRuns.CommandNamesItsRule` | server/rules.hpp:892-915 | the printed id of a rule is what an enable or disable command aims at |
| `Thresholds.ReadingsDecide` | server/rules.hpp:798-865 | conditions on readings are met when all readings are there and compare, as real numbers, as they say |
| `Thresholds.FiresOnRisingEdges` | server/rules.hpp:959-997 | over any passes, missing readings included and whatever the other rules do, an enabled rule on readings that no rule switches is seen as met exactly when the plain comparisons hold, and fires in exactly the passes in which they hold and did not in the pass before |
| `Hysteresis.PassReacts` | server/rules.json.example:1-28 | one pass over the two example rules is one step of a two-state switch, for any thresholds low < high and any reading |
| `Hysteresis.ExampleIsHysteresis` | server/rules.json.example:1-28 | over any readings, missing ones included, the engine sends what the switch sends in the same passes, and exactly the rule the switch waits for is enabled |
| `Hysteresis.SavedExampleHolds` | server/rules.hpp:618-740 | the saved form of the two rules reads as them, for thresholds of at most six digits |
| `Hysteresis.ExampleLoads` | server/rules.hpp:592-616 | loading any file that reads as the two rules arms the one that switches off |
| `Hysteresis.ExampleAlternates` | server/rules.hpp:592-997 | loaded from any such file, over any readings OFF and ON strictly alternate, OFF first |
| `ShippedExample.ShippedTextReads` | server/rules.json.example:1-28 | the text of the shipped file, character for character, reads as the two rules with thresholds 24.5 and 27 |
| `ShippedExample.ShippedExampleAlternates` | server/rules.json.example:1-28 | with the shipped file, over any readings OFF and ON strictly alternate, OFF first |
| `ShippedExample.ShippedExampleSwitches` | server/rules.json.example:1-28 | with the shipped file, over any contents of the battery register, OFF is sent at 245 and below and ON at 270 and above, each once in its turn, and nothing else |
| `Crc16.ComputeCrc` | simulator_modbus/main.cpp:161-174 | the nested loops compute the register of the bytes |
| `Crc16.AppendCrc` | simulator_modbus/main.cpp:176-180 | the two checksum bytes are appended, low byte first |
| `Crc16.ValidCrc` | simulator_modbus/main.cpp:182-190 | a frame is accepted when it has three bytes and its trailer is the checksum of the rest |
| `Crc16.AppendedIsAccepted` | simulator_modbus/main.cpp:176-190 | a frame with its checksum appended is accepted, unless it was empty |
| `Crc16.CrcAsBits` | simulator_modbus/main.cpp:161-174 | the byte-wise computation feeds the bits of the frame, least significant first, into a shift register |
| `Crc16.AcceptedIffZero` | simulator_modbus/main.cpp:182-190 | accepted if and only if the register of the whole frame is zero |
| `Crc16.BurstsAreCaught` | simulator_modbus/main.cpp:161-190 | two different frames of any equal length that differ inside 16 consecutive bits are never both accepted |
| `Crc16.OddErrorsAreCaught` | simulator_modbus/main.cpp:161-190 | nor are two that differ in an odd number of bits |
| `ModbusSlave.Slave.ReadPayload` | simulator_modbus/main.cpp:346-360 | the register loop of a read, in 16-bit addresses, stopping at the first missing one |
| `ModbusSlave.Slave.AnswerRead` | simulator_modbus/main.cpp:341-367 | function 3: the values, or exception 2 or 3 |
| `ModbusSlave.Slave.AnswerWrite` | simulator_modbus/main.cpp:368-385 | function 6: the store changed and the request echoed, or exception 2 or 3 |
| `ModbusSlave.Slave.Poll` | simulator_modbus/main.cpp:302-390 | one read from the line: drop a byte, drop a request for another slave, or answer, until fewer than eight bytes are left |
| `ModbusSlave.Step` | simulator_modbus/main.cpp:308-389 | each round of the receive loop makes the buffer shorter |
| `ModbusStream.FragmentationIsInvisible` | simulator_modbus/main.cpp:302-390 | replies, store and rest do not depend on how the stream is cut into reads |
| `ModbusStream.StartsIsTheCut` | simulator_modbus/main.cpp:308-332 | the decoder finds the one choice of windows that are requests, do not overlap and leave no request uncovered |
| `ModbusStream.StreamIsServed` | simulator_modbus/main.cpp:302-390 | and serves exactly those, in order |
| `ModbusStream.GarbageIsDropped` | simulator_modbus/main.cpp:308-332 | garbage in which no request window starts has no effect on what follows it |
| `ModbusStream.BackToBack` | simulator_modbus/main.cpp:387-389 | requests sent back to back are each served, in order, with nothing left over |
| `ModbusRegisters.StoreRemembersLastWrite` | simulator_modbus/main.cpp:368-385 | over any requests the keys, rights and read-only entries stay, and a writable register holds the last value written |
| `ModbusRegisters.ReadReturnsLastWrite` | simulator_modbus/main.cpp:334-389 | a read among any requests is answered, after id, function and byte count, with two bytes for each register: the two value bytes of the last write to it before, or the number held from the start, high byte first; for a read-only one the source's value of exactly that draw |
| `ModbusRegisters.ExceptionsAreExact` | simulator_modbus/main.cpp:341-379 | exception 3 answers exactly a quantity out of 1 to 125 or a write to a read-only register, exception 2 any other request for a missing register, and a write carried out is answered with itself |
| `ModbusRegisters.MasterIsUnderstood` | simulator_modbus/main.cpp:308-339 | the frame of an id, a function, an address and a number, high bytes first, with its checksum is a request with just these |
| `ModbusRegisters.MasterSeesItsWrite` | simulator_modbus/main.cpp:302-390 | a master that writes any number to a writable register and reads it back receives its request and then the number |
| `ModbusRegisters.RepliesAreProper` | simulator_modbus/main.cpp:334-389 | one reply for each request to this slave, each with a valid checksum and 5, 8 or 5 + 2q <= 255 bytes long |
| `ModbusRegisters.RefusalsChangeNothing` | simulator_modbus/main.cpp:341-385 | a refused request changes no register |
| `ModbusRegisters.SlaveIsARegisterMap` | simulator_modbus/main.cpp:197-390 | all of this from the start of the slave over any stream in any pieces |
| `ScanScheduler.Firmware.ResetScanTime` | inverter/inverter.ino:399-404 | a reset is the state at boot |
| `ScanScheduler.Firmware.RestartControlScan` | inverter/inverter.ino:980-985 | a write sets the control scan to begin again as soon as the clock of a pass has reached the time the command itself has read |
| `ScanScheduler.Firmware.BeginDueScans` | inverter/inverter.ino:1140-1150 | the scans that have ended and are due begin again |
| `ScanScheduler.Firmware.Loop` | inverter/inverter.ino:1140-1182 | one pass reads at most one register, monitor registers first, with an index inside its table |
| `ScanScheduler.ElapsedNear` | inverter/inverter.ino:361-363 | within 2^31 ms of its target the signed 32-bit comparison is that of true time |
| `ScanScheduler.DelayHolds` | inverter/inverter.ino:361-363 | a delay never ends early if and only if it is at most 2^31 ms |
| `ScanScheduler.ResetStalls` | inverter/inverter.ino:399-404 | after a reset a register is read at once if and only if the clock is in its lower half |
| `ScanRuns.ScansAreComplete` | inverter/inverter.ino:1140-1182 | in any run of passes, register writes and resets, the k-th read of a scan since it was last begun anew is of entry k modulo the table, so each entry is read once and in order and an interrupted control scan resumes; control registers are read only between monitor scans |
| `ScanRuns.ReadsAreSpaced` | inverter/inverter.ino:361-363 | in any such run two reads of one scan are at least the spacing apart in true time, across any wraps |
| `ScanTimes.MonitorReadsOnTime` | inverter/inverter.ino:1140-1165 | in any such run a monitor register is read in the first pass in which the spacing, or behind a finished scan the monitor interval, has passed since the last, and not before, except at once when the interval ends at zero on the clock |
| `ScanTimes.ControlReadsOnTime` | inverter/inverter.ino:1146-1182 | a finished control scan begins again in the first pass in which the control interval has passed, and not before but for that zero; a pending one goes on between monitor scans in the first pass in which the spacing has passed since the last read, at once behind a register write |
| `ScanStarvation.NoStarvation` | inverter/inverter.ino:1152-1182 | a pending control register is sure of its read between two monitor scans if and only if spacing plus longest gap is at most the interval and the computed next monitor time is not zero |
| `ScanStarvation.AlwaysStarved` | inverter/inverter.ino:1152-1182 | with an interval no longer than the spacing it is never read |
| `ScanStarvation.ControlScanEndsInTime` | inverter/inverter.ino:1140-1182 | at most as many monitor scans finish during a control scan as there are control registers, not counting those whose next time was computed as zero |
| `Eeprom.FieldsAreDisjoint` | inverter/inverter.ino:15-31 | no two fields share a byte and none leaves the declared size |
| `Eeprom.Firmware.ReadText` | inverter/inverter.ino:197-207 | the text up to a zero or erased byte, at most all but the field's last byte |
| `Eeprom.Firmware.WriteText` | inverter/inverter.ino:255-265 | the text and zeros to the end of its field, nothing else |
| `Eeprom.Firmware.WriteUint32` | inverter/inverter.ino:354-359 | four bytes, least significant first, nothing else |
| `Eeprom.Firmware.ReadUint32` | inverter/inverter.ino:345-352 | the number of those bytes |
| `Eeprom.NumberBack` | inverter/inverter.ino:345-359 | the four bytes of a number are its digits to the base 256, the least significant first, and give it back |
| `Eeprom.Firmware.SaveSettings` | inverter/inverter.ino:267-396 | each save writes its fields or, for a text too long or a relay that does not exist, nothing |
| `Eeprom.Firmware.LoadWiFiCredentials` | inverter/inverter.ino:209-217 | both texts, and whether there is a name |
| `Eeprom.Firmware.LoadMonitorServer` | inverter/inverter.ino:219-231 | host and port, or none at all when either is missing |
| `Eeprom.Firmware.LoadSimulationMode` | inverter/inverter.ino:233-241 | the mode, on when it was never saved |
| `Eeprom.Firmware.LoadRelayIpAddresses` | inverter/inverter.ino:243-253 | the address of every relay, and whether there is any |
| `Eeprom.Firmware.LoadTimingConfig` | inverter/inverter.ino:365-381 | the delays, or the defaults when none was saved or one is zero |
| `Eeprom.AcceptedFits` | inverter/inverter.ino:267-343 | a text is saved exactly when its field has room for it and a zero behind it |
| `Eeprom.PutIsLocal` | inverter/inverter.ino:15-31 | writing a field shows in that field and in no other |
| `Eeprom.FieldsAreIndependent` | inverter/inverter.ino:255-396 | after any saves each field holds what the last save of it wrote |
| `Eeprom.TextLoadsAsSaved` | inverter/inverter.ino:197-294 | a text loads as it was saved last, up to a byte 255, so unchanged if and only if it has none |
| `Eeprom.ServerLoadsAsSaved` | inverter/inverter.ino:219-285 | after any saves the loader gives host and port as saved last if and only if there is a host, the port is not 0 in 16 bits, and neither text has a byte 255 |
| `Eeprom.PortLoadsAsNumber` | inverter/inverter.ino:219-285 | a host and a port from 1 to 65535, saved as typed, load as that host and, as a number, that port |
| `Eeprom.SimulationLoadsAsSaved` | inverter/inverter.ino:233-241 | the simulation mode loads as it was saved last |
| `Eeprom.TimingLoadsAsSaved` | inverter/inverter.ino:345-396 | every 32-bit delay loads as it was saved last, but for zero, which loads the default |
| `Eeprom.ErasedLoads` | inverter/inverter.ino:54-57 | an erased memory loads no text and no server, simulation on, and delays of 60000, 5000 and 300 ms |
| `LineAssembly.Monitor.UpdateRelayStateWithIp` | server/server_monitor.hpp:129-161 | a relay line stores state and address of an existing relay, anything else is refused and changes nothing |
| `LineAssembly.Monitor.UpdateAddressValue` | server/server_monitor.hpp:163-182 | two 16-bit numbers store the second, as two's complement, under the first; anything else is refused and changes nothing |
| `LineAssembly.Monitor.OnReceive` | server/server_monitor.hpp:248-267 | the received bytes extend the socket's pending text, its complete lines are handled in order, and the rest waits |
| `LineAssembly.LinesAreTheCut` | server/server_monitor.hpp:252-265 | the lines handled are the one way to cut the text at its line feeds |
| `LineAssembly.LinesOfMore` | server/server_monitor.hpp:249-265 | cutting a text in two pieces, the rest of the first carried over, gives the lines of the whole |
| `Telemetry.AssemblyIsPerSocket` | server/server_monitor.hpp:237-268 | for any clients, fragments and interleaving: each socket's handled lines are those of its whole stream, and the store is what all handled lines make of it in order |
| `Telemetry.ReusedSocket` | server/server_monitor.hpp:249-250 | a client on a reused socket number has its own lines handled if and only if nothing unfinished was left, or it finishes no line, or the two halves make an empty line |
| `Telemetry.ReadingIsStored` | inverter/inverter.ino:1037-1043 | the line the firmware prints for 16-bit numbers is read as them and stores the two's complement of the same 16 bits |
| `Telemetry.RelayIsStored` | inverter/inverter.ino:572-577 | the line the firmware prints for a relay is read as that report, and never as a reading |
| `Telemetry.LargeReadingIsRefused` | server/server_monitor.hpp:163-182 | two numbers one of which does not fit 16 bits change nothing |
| `Telemetry.LargeRelayIsRefused` | server/server_monitor.hpp:129-161 | nor does a relay line with a relay other than 1 to 4 or a state above 1 |
| `Telemetry.DeviceIsHeard` | inverter/inverter.ino:1037-1043 | a device's readings, in any fragments between other clients' bytes, are exactly the lines handled for it |
| `Telemetry.DeviceIsMirrored` | server/server_monitor.hpp:163-182 | and the value of an address only this device reports is its last reading, whatever the others send |
| `Downsampling.FilterLines` | server/utils.hpp:124-144 | the lines with a timestamp in range, in order |
| `Downsampling.ChoosePoints` | server/utils.hpp:157-165 | the selected points; the clamp is never needed |
| `Downsampling.ReadDataFilePointsInRange` | server/utils.hpp:108-168 | nothing, all, the last, or the selected points, as the numbers demand |
| `Downsampling.StringOrder` | server/utils.hpp:139 | the comparison of timestamps is the order by the first character in which they differ, a beginning coming first |
| `Downsampling.StringOrderIsTotal` | server/utils.hpp:139 | which is a strict total order |
| `Downsampling.ChoiceIsNearest` | server/utils.hpp:157-165 | the i-th selected place is the one nearest to i (n - 1) / (m - 1), the higher of two |
| `Downsampling.ChoiceIsFair` | server/utils.hpp:157-165 | the selected places begin with the first point, end with the last, and their gaps are the floor or ceiling of (n - 1) / (m - 1) |
| `Downsampling.FilterMissesNothing` | server/utils.hpp:124-144 | every line whose timestamp does not come before the one bound nor behind the other is kept |
| `Downsampling.ResultIsFairSubsequence` | server/utils.hpp:108-168 | in every case an in-range subsequence of the file, the last point of it the last in range, with min(n, m) points if and only if both bounds are given or there is nothing to return |

## Left out

- Doubles are exact decimals when read and printed, and exact reals when compared and when added to or subtracted from a variable: binary rounding, overflow and underflow (where `stod` throws), and the hexadecimal, infinite and not-a-number forms of `stod` are not modelled. `std::round` and the stride of the chart points are taken in exact arithmetic.
- UnknownMembers.UnknownMemberIgnored: for members whose values have no empty containers inside, as JsonSkip.ValueSkipped.
- JsonSkip.ValueSkipped: one direction only. An empty container inside does not always lead astray (`JsonSkip.EmptyCanBeHarmless`), so "no empty container" is sufficient and not necessary.
- RuleRuns.FileAgreesWithMemory: for runs in which every write succeeds; a write that fails leaves the file as it was (RuleRuns.FileIsAnEarlierMemory), and one that fails half-way is not modelled.
- Thresholds.FiresOnRisingEdges: for rules whose conditions look at readings and numbers; what a condition on a variable reads behind a list of commands is RuleMeaning.VariableIsBalance.
- Modelled as inputs: the local time of day, the values of `generateMonitorValue`, the times of the firmware's passes, whether the rules file can be written, the bytes each socket delivers.
- Modelled as recorded events: the commands a rule sends and the system commands it starts.
- The lines of a chart's data file are given as what their two fields read as; trimming and field extraction are not modelled.
- The line breaks of the two printers are attached to the text that follows them; the texts are those of the source.
- The blanks skipped again at the head of the rule array's loop, which have no effect.
- `EEPROM.commit` is taken to succeed; `parseIpAddress` and the texts of the command interface are not modelled, nor is a change of the delays during a run.
- Sockets, `select`, threads, HTTP, sessions, relay switching, WiFi and the Modbus master: plumbing. Every rules operation holds one lock and is one step here.
- The temperature firmware and the monitor simulator repeat code modelled here and would add easy members only.
