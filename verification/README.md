# chaser-console argument engine, in Dafny

A model of the core of the PHP console library `chaser-console`: the
argument engine that turns a command line into named values, and the
small classes around it.

- **Arguments** (`Argument` trait, `Parameter`, `Option`): checked
  constructors returning `Result`, with the mode bits `COMPLEX = 0b1`,
  `REQUIRED = 0b10` and `OPTIONAL = 0b100`, the name and shortcut checks
  and the normalisation of the variadic defaults into null, one string
  or a list.
- **Definition**: the ordered parameters and options plus the shortcut
  index, the fail-fast `addParameter`/`addOption`, the non-atomic
  `setParameters`/`setOptions`, the synopsis renderer and `resolve`.
  `Valid` collects the invariants the adders keep.
- **Input** (the tokenizer): a left-to-right fold over the tokens with
  the state `Positional | Attach(target) | AfterMarker`. Module
  `InputRecursion` transcribes the source's mutually recursive
  `parse`/`parseNotArgument`/`parseOption`/`parseParameters` and is proved
  equal to the fold.
- **Concrete**: the resolved name → value maps, where a key mapped to
  null is distinct from an absent key.
- **Command**, **Application**, **Descriptor**, **Style** and **Output**:
  - the name/definition/synopsis caches and the merge of a command's
    definition with the application's;
  - the registry and exit-code clamping;
  - column widths and help lines;
  - colour parsing and the ANSI sequences;
  - the output-mode state machine.
- **RoundTrip**: writes a resolved `Concrete` back out as a command line,
  and proves that parsing and resolving that line gives the same
  `Concrete`. The line holds the parameter values in order, up to the
  first unbound parameter, then `--name` followed by its values for each
  bound option. The library itself has no such writer: `--name=value`
  would lose the value, so the writer puts the values after `--name`.
- `Scenarios` and `TokenScenarios` work through concrete command lines
  against concrete definitions and prove the outcome the code gives.

Mutable PHP objects are immutable datatypes. A method that mutates is a
function returning the new state. Lazily cached getters return the
updated object together with the value. An exception is an `Error`
constructor whose `Kind()` names the exception class: InvalidArgument,
Logic, Runtime or CommandNotFound. `setParameters`, `setOptions`,
`addParameters`, `addOptions` and `Style::setOptions` return the state
they leave behind together with the exception, because the source
mutates before it throws.

## Model

| member | source | states |
|---|---|---|
| Arguments.CheckName | src/argument/Argument.php:75-84 | The name passes exactly when it is non-empty and has no PCRE whitespace. An empty name gives the "empty" error. Every failure is InvalidArgument. |
| Arguments.SetDefault | src/argument/Argument.php:111-122 | Succeeds exactly when a REQUIRED argument has no defaults and a non-COMPLEX one has at most one. The stored default has the shape the mode demands: a non-empty list or null if COMPLEX, one string or null otherwise. Reading it back gives exactly the defaults passed in. Failures are Logic. |
| Arguments.NewParameter | src/argument/Parameter.php:22-28 | Succeeds exactly for a valid name, a mode in 0..3 and fitting defaults. The result is well-formed and keeps the given fields. An empty name fails first. A valid name with an out-of-range mode fails with InvalidMode. The error is InvalidArgument exactly when the name or mode check failed, so the check order decides the kind. |
| Arguments.CheckShortcut | src/argument/Option.php:76-83 | A shortcut passes exactly when it is null, or one character that is neither whitespace nor `-`. A failure is InvalidArgument. |
| Arguments.CheckOptionMode | src/argument/Option.php:88-99 | Passes exactly when REQUIRED and OPTIONAL are not both set and COMPLEX comes with one of them. Failures are Logic, and no range is checked. |
| Arguments.SetOptionDefault | src/argument/Option.php:116-123 | Defaults must be non-empty exactly when OPTIONAL is set, else OptionalDefaultMismatch. On success the stored default is non-null exactly for OPTIONAL options. |
| Arguments.NewOption | src/argument/Option.php:34-41 | Succeeds exactly when name, mode combination, shortcut and defaults are all acceptable. The result is well-formed and keeps the given fields. The error is InvalidArgument exactly when the name failed, or the mode passed and the shortcut failed. This is the name, mode, shortcut, default check order. |
| Arguments.OptionModeNotRangeChecked | src/argument/Option.php:88-91 | Any multiple of 8, negative ones included, builds a plain flag option: the trait's range check never runs for options. |
| Arguments.ShortcutNewlineAccepted | src/argument/Option.php:79 | The pattern as written accepts `"a\n"`, which the intended one-character check refuses. Every intended shortcut is accepted, and the only extra strings are two characters long and end in a newline. |
| Concretes.GetParameter | src/input/Concrete.php:28-42 | `getParameter` returns the stored value for a present key, possibly null. For an absent key it returns null. A non-null result implies `hasParameter`. |
| Concretes.GetOption | src/input/Concrete.php:50-64 | The same for options. |
| Concretes.NullIsNotAbsence | src/input/Concrete.php:28-64 | A key mapped to null is reported present by `has*` and null by `get*`, while an absent key gives null and not-present. Only `has*` tells the two apart. |
| Definitions.AddParameter | src/input/Definition.php:137-164 | A duplicate name gives DuplicateParameter. Every failure is Logic. A success appends exactly the parameter and leaves the options and the shortcut index alone. |
| Definitions.AddParameterValid | src/input/Definition.php:137-164 | On a valid definition, `addParameter` succeeds exactly for a new name, with no COMPLEX parameter before it, and, when the new one is REQUIRED, only REQUIRED ones before it. The result is valid again: the required count equals the number of REQUIRED parameters, required ones come first, a COMPLEX one is last, and names are distinct. |
| Definitions.RequiredArePrefix | src/input/Definition.php:149-161 | When required parameters come first, a parameter is REQUIRED exactly when its index is below the required count. |
| Definitions.AddOption | src/input/Definition.php:205-223 | A duplicate name gives DuplicateOption. Every failure is Logic. A success appends exactly the option and leaves the parameter state alone. |
| Definitions.AddOptionValid | src/input/Definition.php:205-223 | On a valid definition, `addOption` succeeds exactly for a new name whose shortcut, if any, no earlier option has. The shortcut index then still maps each shortcut exactly to its option's name. |
| Definitions.ShortcutsDistinct | src/input/Definition.php:215-220 | In a valid definition no two options share a shortcut. |
| Definitions.AddParameters | src/input/Definition.php:125-130 | The parameters added are always a prefix of the list. With no exception it is the whole list. Otherwise the exception is exactly what adding the next element raises. |
| Definitions.AddParametersValid | src/input/Definition.php:125-130 | `addParameters` keeps a valid definition valid, even when it stops part-way. |
| Definitions.SetParameters | src/input/Definition.php:111-118 | Clears the parameter state, then adds in order. After a failure the elements before the failing one remain added, so the operation is not atomic. The options are untouched, and the result is valid when the options were. |
| Definitions.AddOptions | src/input/Definition.php:193-198 | The options added are a prefix of the list. The exception is exactly what adding the next one raises. The parameter state is untouched. |
| Definitions.AddOptionsValid | src/input/Definition.php:193-198 | `addOptions` keeps a valid definition valid, even when it stops part-way. |
| Definitions.SetOptions | src/input/Definition.php:181-186 | Clears the options and the shortcut index, then adds in order. It is not atomic: a failure leaves a prefix added. The parameters are untouched, and the result is valid when they were. |
| Definitions.NewDefinition | src/input/Definition.php:65-94 | Construction succeeds exactly when the list's parameters are in an accepted order and its options are too. Parameters must have distinct names, required ones first and a COMPLEX one last. Options must have distinct names and distinct shortcuts. On success the definition is valid and holds the parameters and options in list order. A bad parameter order fails with DuplicateParameter, ParameterAfterComplex or RequiredAfterOptional. Otherwise a bad option order fails with DuplicateOption or DuplicateShortcut. Every failure is Logic. |
| Definitions.ParameterOrderSnoc | src/input/Definition.php:137-164 | A list stays in accepted parameter order after appending a parameter exactly when `addParameter`'s three checks pass for it. |
| Definitions.OptionOrderSnoc | src/input/Definition.php:205-223 | A list stays in accepted option order after appending an option exactly when `addOption`'s two checks pass for it. |
| Definitions.AddParametersOk | src/input/Definition.php:125-130 | On a valid definition, `addParameters` raises nothing exactly when the existing parameters followed by the list are in accepted order. |
| Definitions.AddOptionsOk | src/input/Definition.php:193-198 | On a valid definition, `addOptions` raises nothing exactly when the existing options followed by the list are in accepted order. |
| Definitions.SetParametersOk | src/input/Definition.php:111-118 | `setParameters` raises nothing exactly when the new list alone is in accepted order. The old parameters do not matter. |
| Definitions.SetOptionsOk | src/input/Definition.php:181-186 | `setOptions` raises nothing exactly when the new list alone is in accepted order. |
| Definitions.SetParametersErrors | src/input/Definition.php:111-164 | A failing `setParameters` raises DuplicateParameter, ParameterAfterComplex or RequiredAfterOptional. |
| Definitions.SetOptionsErrors | src/input/Definition.php:181-223 | A failing `setOptions` raises DuplicateOption or DuplicateShortcut. |
| Definitions.SynopsisCons | src/input/Definition.php:295-321 | Peeling the first parameter off the flat rendering leaves its item, a space, the rest's rendering, and its own `]` when it is optional. |
| Definitions.SynopsisIsNested | src/input/Definition.php:295-321 | The flat rendering, items space-joined and then one `]` per optional parameter, equals a reference rendering in which every optional parameter's bracket encloses all later ones. |
| Definitions.ZeroShortcutOmitted | src/input/Definition.php:343-352 | A shortcut `'0'` is falsy in PHP, so the option renders exactly as if it had none, starting with `[--name`. |
| Definitions.SynopsisParts | src/input/Definition.php:295-355 | A non-empty parameter list renders non-empty, and so does a non-empty option list. In long form the options part starts with the first option's `[-s\|--name VALUE]` item. |
| Definitions.GetSynopsis | src/input/Definition.php:231-239 | Without options the synopsis is the nested parameter rendering, and without parameters it is the options part. With both it is options, ` [--] `, parameters. With options it starts with `[options]` in short form, or with the first option's item in long form. |
| Inputs.Register | src/input/Input.php:229-233 | Registering a key adds exactly that key. It keeps every existing list and gives a new key an empty list. |
| Inputs.RegisterLetters | src/input/Input.php:208-215 | The keys after registering the letters are the old keys plus each letter. Existing lists are untouched, and new keys get empty lists. |
| Inputs.Step | src/input/Input.php:159-252 | After `--` every token is positional. Before any option a bare token is positional. After an option a bare token is appended to that option's list and never to the positionals. A lone `-` fails with EmptyShortcut. An exact `--` switches to all-positional. An option token adds no positional and leaves its option registered as the target. |
| Inputs.LongValueDiscarded | src/input/Input.php:184-194 | `--name=value` has exactly the effect of `--name`: the value is lost. |
| Inputs.LongOptionStep | src/input/Input.php:184-194 | `--name` registers exactly `name` and makes it the target. |
| Inputs.LongOptionKeepsValues | src/input/Input.php:184-194 | `--name` with `name` already registered keeps its list, and later bare tokens append to it. |
| Inputs.ShortStack | src/input/Input.php:202-220 | `-abc` succeeds and targets `c`. It adds exactly the letters as keys, giving new ones empty lists and leaving existing lists untouched. It changes neither the positionals nor the long options. |
| Inputs.DashStepIgnoresState | src/input/Input.php:172-177 | Outside the all-positional state, an option token does the same whatever option was current. |
| Inputs.FirstDash | src/input/Input.php:159-165 | The index of the first `-`-prefixed token: every earlier token is bare. |
| Inputs.AfterMarkerAllPositional | src/input/Input.php:247-252 | After `--` every remaining token, `-`-prefixed ones included, is appended to the positionals in order. |
| Inputs.AttachedParameters | src/input/Input.php:229-252 | Once an option has been seen, the only new positionals are the tokens after the first exact `--`. |
| Inputs.PositionalParameters | src/input/Input.php:159-252 | The positionals are the tokens before the first `-`-prefixed token, followed by every token after the first exact `--` at or beyond it. |
| Inputs.ParseParameters | src/input/Input.php:159-165 | The same, stated on `new Input(tokens)`. |
| Inputs.AttachCollects | src/input/Input.php:235-241 | Bare tokens after `--name` are all appended, in order, to `name`'s list. |
| Inputs.Slice | src/input/Input.php:107-110 | `array_slice` from a start: a suffix for a start within the list, empty past the end, and counted from the end for a negative start. |
| Inputs.GetParameterValue | src/input/Input.php:107-110 | For a COMPLEX request it is the suffix from the position, or null past the end. Otherwise it is the element at the position, or null. |
| Inputs.GetOptionValues | src/input/Input.php:131-144 | The long-name entry whenever one exists, even an empty one, otherwise the shortcut's entry. |
| Inputs.HasOptionIffValues | src/input/Input.php:115-144 | `hasOption(o)` holds exactly when `getOptionValues(o)` is not null. |
| Inputs.Clone | src/input/Input.php:149-154 | The clone's raw tokens are the originals from `start` on, all of them for 0. |
| Inputs.CloneFromStart | src/input/Input.php:149-154 | Cloning from 0 re-parses to the same input. |
| Inputs.FoldPrefixIndependent | src/input/Input.php:159-252 | The positionals already collected never influence the rest of a parse. |
| Inputs.CloneDropsFirstPositional | src/input/Input.php:149-154 | When the first raw token is bare, `clone(1)` parses exactly when the original does. It gives the same input without that first positional. |
| InputRecursion.ParametersAgree | src/input/Input.php:247-252 | `parseParameters` is the fold in the all-positional state, consuming the whole queue. |
| InputRecursion.OptionLoopAgrees | src/input/Input.php:229-242 | `parseOption`'s loop is the fold in the state attached to that option. |
| InputRecursion.NotArgumentAgrees | src/input/Input.php:172-177 | `parseNotArgument(token)` is one fold step on the token followed by the rest of the fold. |
| InputRecursion.LongAgrees | src/input/Input.php:184-194 | `parseLongOption` is the fold on its `--` token. |
| InputRecursion.ShortAgrees | src/input/Input.php:202-221 | `parseShortOption` is the fold on its `-` token. |
| InputRecursion.ShortOptionUnfolds | src/input/Input.php:208-220 | The descending loop over the letters registers what the fold's single step registers, then targets the last letter. |
| InputRecursion.RegisterDownLetters | src/input/Input.php:211-215 | The `for ($i = $end - 1; $i >= 0; $i--)` loop registers the same keys as registering the letters in one go. |
| InputRecursion.ParseLoopAgrees | src/input/Input.php:159-165 | `parse()`'s loop from any collected state is the fold from that state. |
| InputRecursion.RecursionIsFold | src/input/Input.php:159-252 | For every token list, the transcribed recursion and the fold give the same input or the same exception. |
| Resolution.BindParameters | src/input/Definition.php:259-267 | The parameter loop stores only names the parameters declare. |
| Resolution.BindKeeps | src/input/Definition.php:259-267 | Names the loop does not declare keep whatever they held. |
| Resolution.BindSlot | src/input/Definition.php:259-267 | With distinct names, the i-th parameter takes token position+i, or the whole suffix when COMPLEX, while tokens remain. After that it takes its non-null default, or stays as it was. |
| Resolution.BindOption | src/input/Definition.php:270-285 | It fails exactly for a REQUIRED option present with no values, with MissingOptionValue. It binds nothing exactly when the option is absent with a null default. Present without values, it binds the default, possibly null. Present with values, it binds null for a flag, the list for COMPLEX, and the first value otherwise. |
| Resolution.BindOptions | src/input/Definition.php:269-285 | The option loop succeeds exactly when every option binds. An error is some option's own error. Only declared names are stored. |
| Resolution.BindOptionsSlot | src/input/Definition.php:269-285 | With distinct names, each option's entry is exactly its own binding. |
| Resolution.Resolve | src/input/Definition.php:247-288 | Fewer positionals than required gives TooFewParameters(required, given). Otherwise it succeeds exactly when every option binds, and a failure is MissingOptionValue of a declared option. Every error is Runtime, and the result holds only declared names. |
| Resolution.ResolveParameter | src/input/Definition.php:259-267 | Under a valid definition, the i-th parameter gets the i-th token, or all tokens from the i-th on when COMPLEX. Past the end it gets its default, and is present exactly when that default is non-null. |
| Resolution.ResolveBindsRequired | src/input/Definition.php:249-267 | Under a valid definition, a successful resolve binds every REQUIRED parameter to a non-null value. |
| Resolution.ResolveOption | src/input/Definition.php:269-285 | Under a valid definition, each option is present with exactly its binding, or absent when it binds nothing. |
| Commands.GetName | src/command/Command.php:97-108 | The set name, else the kind's default name, which is then stored. Nothing else changes. |
| Commands.NameIsCached | src/command/Command.php:105-108 | A second read returns the same name and changes nothing. |
| Commands.SetNameWins | src/command/Command.php:97-100 | An explicitly set name is what `getName` returns. |
| Commands.BuiltinArgumentsChecked | src/command/HelpCommand.php:37-42 | The built-in commands' parameters pass the checked constructor as written. |
| Commands.AddUsage | src/command/Command.php:145-152 | Appends one usage and keeps the earlier ones. The stored usage always starts with the name: it is the given usage if that already did, and name, space, usage otherwise. |
| Commands.UsagePrefixIdempotent | src/command/Command.php:145-152 | Adding a stored usage again stores the same text. |
| Commands.GetDefinition | src/command/Command.php:173-176 | A cached definition is returned unchanged. Otherwise it is built from the command's arguments, with the same parameters, options and error, and then cached. A valid cache stays valid. |
| Commands.DefinitionIsCached | src/command/Command.php:173-176 | A second `getDefinition()` returns the same definition and changes nothing. |
| Commands.GetSynopsis | src/command/Command.php:165-168 | A cached synopsis is returned as is. Otherwise it is `trim(name . ' ' . definition synopsis)`, cached under `short`, with the other cached values kept. |
| Commands.SynopsisIsCached | src/command/Command.php:165-168 | A second `getSynopsis(short)` returns the same text and changes nothing. |
| Commands.SynopsisOfBareCommand | src/command/Command.php:165-168 | A command with no parameters and no options has its bare name as synopsis, the trailing space trimmed. |
| Commands.MergeDefinitions | src/command/Command.php:189-198 | The merged definition is valid. It holds the application's parameters then the command's, and the command's options then the application's. A failure is a Logic error. |
| Commands.SharedParameterRejected | src/command/Command.php:192-193 | A parameter name declared on both sides makes the merge fail. |
| Commands.SharedOptionRejected | src/command/Command.php:195-196 | An option name declared on both sides makes the merge fail. |
| Commands.MergeOk | src/command/Command.php:181-199 | Merging succeeds exactly when the application's parameters followed by the command's are in accepted parameter order, and the command's options followed by the application's are in accepted option order. |
| Commands.GetDefinitionWithApplication | src/command/Command.php:181-199 | Succeeds exactly when the command's own definition builds and merges with the application's. It keeps the command with its cached definition. The result is valid and holds the application's parameters then the command's, and the command's options then the application's. Failures are Logic. |
| Commands.GetConcrete | src/command/Command.php:204-207 | Succeeds exactly when the merge and the resolve succeed, and gives that resolve's result. Failures are Logic or Runtime. |
| Applications.NewApplication | src/Application.php:56-63 | The base commands are exactly `help` and `list`, there are no user commands, and `list` is the default. |
| Applications.AddBase | src/Application.php:194-198 | Registers the command under its now cached name as a base command. |
| Applications.Add | src/Application.php:70-74 | Registers the command under its name as a user command, overwriting a user command of that name. |
| Applications.Get | src/Application.php:82-102 | Succeeds exactly when `has(name)`. A base command wins over a user command of the same name, and an unknown name gives CommandNotFound. |
| Applications.AddThenGet | src/Application.php:70-102 | A command just added is found under its name unless a base command shadows it. |
| Applications.AddKeepsOthers | src/Application.php:70-102 | Adding a command leaves every other name's lookup as it was. |
| Applications.InsertSorted | src/Application.php:171 | Inserting a new key into strictly ascending keys keeps them strictly ascending. It adds exactly that key. |
| Applications.GetCommands | src/Application.php:166-174 | Exactly the user commands whose names start with the prefix, all of them for `''`. Each comes with its command, in strictly ascending name order. |
| Applications.NormalizeCode | src/Application.php:244-257 | The result lies in [min, 255], min being 1 on the error path and 0 otherwise. Codes inside the range are unchanged, and the rest are clamped to the nearer bound. |
| Applications.NormalizeIdempotent | src/Application.php:244-257 | Normalising twice is normalising once. |
| Applications.ErrorCodeNeverZero | src/Application.php:231-235 | The exception path never reports exit code 0. |
| Applications.GetDefinition | src/Application.php:182-187 | The global definition, when built, is valid. |
| Applications.OutputOptionChecked | src/Application.php:185 | The `output` option passes its checked constructor: shortcut `O`, OPTIONAL, default `'0'`. |
| Applications.DefinitionShape | src/Application.php:182-187 | The global definition builds. It has no parameters and exactly the `-O\|--output` option. |
| Applications.CommandParameterBinding | src/command/Command.php:181-207 | The global definition has no parameters, so a command's i-th parameter binds the i-th positional token of its input, or its default. |
| Applications.OutputAlwaysResolved | src/command/Command.php:204-207 | Every successfully resolved command input holds an `output` entry, `'0'` when the option was not given. |
| Descriptors.OptionWidth | src/descriptor/Descriptor.php:269-279 | The width is the name's length plus 6 for a flag, twice the length plus 7 for a REQUIRED value and twice the length plus 9 for an OPTIONAL one. |
| Descriptors.OptionWidthIsSynopsisLength | src/descriptor/Descriptor.php:179-189 | For every well-formed option the width formula is the length of the rendered left column. |
| Descriptors.OptionWidthAsWrittenMismatch | src/descriptor/Descriptor.php:186-188 | A shortcut `"a\n"` passes the check as written, and then the rendered column is one wider than the width formula. |
| Descriptors.ParametersAlignWidth | src/descriptor/Descriptor.php:236-239 | The maximum parameter width: at least every width and equal to one of them, or 0 for none. |
| Descriptors.OptionsAlignWidth | src/descriptor/Descriptor.php:247-250 | The maximum option width, or 0 for none. |
| Descriptors.CommandsAlignWidth | src/descriptor/Descriptor.php:222-228 | The maximum command-name length, or 0 for none. |
| Descriptors.OptionSectionIffOptions | src/descriptor/Descriptor.php:120-126 | The options section is printed exactly when there are options. |
| Descriptors.ParameterSectionIffParameters | src/descriptor/Descriptor.php:112-118 | For well-formed parameters, the parameters section is printed exactly when there are parameters. |
| Descriptors.Padding | src/descriptor/Descriptor.php:171-191 | Spaces only: `alignWidth - width` of them when positive, none otherwise. |
| Descriptors.OptionColumnsAligned | src/descriptor/Descriptor.php:162-199 | Every well-formed option's left column plus its padding fills the align width, so all descriptions start in one column. |
| Descriptors.ParameterColumnsAligned | src/descriptor/Descriptor.php:132-157 | The same for parameters. |
| Descriptors.DefaultSuffix | src/descriptor/Descriptor.php:164-169 | Empty exactly for a null default. Otherwise it starts with `<comment> [default: ` and ends with `]</comment>`. Between them is the value itself, or the list's items joined by single spaces when COMPLEX. |
| Descriptors.DefaultSuffixSingleton | src/descriptor/Descriptor.php:164-169 | A COMPLEX default holding one item renders the same as that item as a single default. |
| Descriptors.ParameterLine | src/descriptor/Descriptor.php:151-156 | The line is two spaces, the name in `<info>` tags, two spaces, the padding and the description. It then ends with the default suffix for the parameter's mode and default, and its length is the sum of the two parts. With a null default and a fitting width, its length is 17 plus the align width plus the description. |
| Descriptors.OptionLine | src/descriptor/Descriptor.php:193-199 | The line starts with the coloured left column, the padding and the description. It ends with the default suffix, followed by ` <comment>(multiple values allowed)</comment>` exactly for a COMPLEX option, and its length is the sum of the parts. For a well-formed single-valued option with a null default, its length is 17 plus the align width plus the description. |
| Descriptors.CommandLine | src/descriptor/Descriptor.php:207-213 | The line is two spaces, the name in `<info>` tags, two spaces, then padding spaces up to the align width, and it ends with the description. Its length is 17 plus the align width plus the description. |
| Styles.RoundChannelThreshold | src/output/Style.php:285 | `round(x / 255)` on a channel value is 1 exactly from 128 on. |
| Styles.ColorByRGB | src/output/Style.php:281-286 | With truecolor the code is `8;2;` and the three channels in decimal, separated by `;`. Without it, it is three digits, each `1` exactly when its channel is at least 128. |
| Strings.NatToString | src/output/Style.php:284 | `%d` of a non-negative number: decimal digits, never a leading zero, and `"0"` exactly for zero. |
| Strings.NatToStringValue | src/output/Style.php:284 | The digits written denote the number itself. |
| Styles.ColorByHex | src/output/Style.php:256-271 | Accepted exactly for 3 or 6 hex digits. |
| Styles.HexPairThreshold | src/output/Style.php:266 | The `hexdec` of a digit pair is at least 128 exactly when its first digit is at least 8. |
| Styles.LongHexColor | src/output/Style.php:265-268 | For six hex digits: with truecolor each channel is `16 * high + low` of its pair, written in decimal. Without truecolor, each code digit is `1` exactly when the high digit of its pair is at least 8. |
| Styles.ShortHexColor | src/output/Style.php:259-262 | For three hex digits: with truecolor each channel is 17 times its digit. Without it, code digit `i` is `1` exactly when hex digit `i` is at least 8. |
| Styles.ShortHexIsDoubled | src/output/Style.php:259-262 | `#rgb` gives the same code as `#rrggbb`. |
| Styles.GetColor | src/output/Style.php:234-248 | A `#` prefix means hex: the code is the hex colour of the rest, accepted exactly for 3 or 6 hex digits. Otherwise it is a named colour with its `COLORS` digit, or nothing. |
| Styles.SetFgColor | src/output/Style.php:104-107 | It succeeds exactly for a colour `getColor` accepts, and sets only the foreground. Otherwise it raises InvalidColor and makes no change. |
| Styles.SetBgColor | src/output/Style.php:112-115 | The same for the background. |
| Styles.Assign | src/output/Style.php:131 | Assigning a PHP array key overwrites in place when present and appends otherwise. Other entries keep their positions. |
| Styles.AssignTwice | src/output/Style.php:131 | Assigning the same entry twice is assigning it once. |
| Styles.Remove | src/output/Style.php:148 | `unset` of a key removes exactly that key's entries and keeps the rest. With no entry for the key the array is unchanged. |
| Styles.RemoveConcat | src/output/Style.php:148 | Removing from two concatenated parts is removing from each, so the remaining entries keep their order. |
| Styles.RemoveOne | src/output/Style.php:148 | When one entry has the key, removal cuts out exactly that entry and leaves the entries before and after it in place. |
| Styles.SetOption | src/output/Style.php:128-132 | Succeeds exactly for a known option, else InvalidStyleOption with no change. A new option is appended with its code, and a present one keeps its place. The colours and the href are untouched. |
| Styles.SetOptionIdempotent | src/output/Style.php:128-132 | Setting an option that is already set changes nothing. |
| Styles.UnsetOption | src/output/Style.php:145-149 | Succeeds exactly for a known option, else InvalidStyleOption. The options become exactly the `unset` removal of that name, with the others in their order. The colours and href are untouched. |
| Styles.UnsetUndoesSet | src/output/Style.php:128-149 | Unsetting an option just set from scratch restores the style. |
| Styles.SetOptions | src/output/Style.php:120-123 | Succeeds exactly when every name is known. A failure is InvalidStyleOption for the first unknown name, since `array_walk` stops at the first exception. The colours and href are untouched. |
| Styles.SetOptionsSetsPrefix | src/output/Style.php:120-123 | Every option before the first unknown name ends up set. |
| Styles.StaysSet | src/output/Style.php:120-132 | Setting further options never removes one. |
| Styles.Codes | src/output/Style.php:176-188 | The codes in order: `3` plus the foreground colour if present, then `4` plus the background colour if present, then each option's code in the options' order. |
| Styles.Set | src/output/Style.php:174-191 | Empty exactly when there are no codes. Otherwise it is `ESC[`, the codes joined by `;`, then `m`. |
| Styles.SetAppendsOption | src/output/Style.php:174-191 | Appending an option to a style that already has codes puts `;` and the option's code just before the final `m`. |
| Styles.UnsetIffSet | src/output/Style.php:196-199 | `unset()` is the reset sequence exactly when `set()` emits something, and empty exactly when it emits nothing. |
| Styles.Apply | src/output/Style.php:162-169 | The result is `set()`, then the text, then `unset()`. The text is wrapped in an OSC 8 hyperlink exactly when the href is truthy and links are supported. A style with no codes and no link leaves the text unchanged. |
| Styles.WithColors | src/output/Style.php:88-96 | Succeeds exactly when each given colour is valid. Each colour is `getColor` of the given one, or absent when none is given. An invalid foreground raises InvalidColor for it first; then an invalid background raises InvalidColor for that one. Failures are InvalidArgument. |
| Styles.NewStyle | src/output/Style.php:88-99 | `new Style(...)` succeeds exactly when both colours and all options are valid. Each colour is `getColor` of the given one, or absent. The option names set are exactly the given names, each with its `OPTIONS` code. A colour failure is the colour part's error. Otherwise the error names the first unknown option. |
| Styles.WithOptions | src/output/Style.php:98 | The constructor's option part: it succeeds exactly when every name is known, and then sets exactly those names with their codes and keeps the colours and href. Otherwise it raises InvalidStyleOption for the first unknown name. |
| Styles.AssignEntries | src/output/Style.php:131 | Assigning a key brings in no entry other than the assigned one. |
| Styles.SetOptionsEntries | src/output/Style.php:120-132 | Every option left by `setOptions` was there before, or is one of the names with its `OPTIONS` code. |
| Styles.NewStyleOptions | src/output/Style.php:98 | Starting from no options, `setOptions` of known names sets exactly those names, each with its code. |
| Outputs.SetMode | src/output/Output.php:75-83 | Accepts exactly 1, 2, 4 and 8, decorating exactly for 1. Otherwise it raises InvalidOutputMode and makes no change. |
| Outputs.NewOutput | src/output/Output.php:34-38 | Construction succeeds exactly for a valid mode and gives a consistent output. |
| Outputs.SetModeKeepsConsistent | src/output/Output.php:75-83 | A successful `setMode` keeps mode and decoration consistent. |
| Outputs.ModesExclusive | src/output/Output.php:96-123 | At most one of plain, raw and quiet holds. On a consistent output exactly one of the four modes holds, and decorate excludes the others. |
| Outputs.Write | src/output/Output.php:43-62 | Quiet emits nothing and raw emits the message. Plain strips tags and decorate formats. |
| Outputs.Writeln | src/output/Output.php:67-70 | The message followed by `lines` newlines, written in the current mode. Quiet emits nothing. Raw emits it as is, plain strips its tags, and decorate formats it. |
| Outputs.WritelnZeroIsWrite | src/output/Output.php:67-70 | `writeln` with zero lines is `write`. |
| Outputs.WritelnOneMoreLine | src/output/Output.php:67-70 | In raw mode one more line adds exactly one newline at the end. |
| Outputs.QuietIsSilent | src/output/Output.php:45-70 | In quiet mode neither `write` nor `writeln` emits anything, whatever the message and line count. |
| TokenScenarios.BuildCommandLineParse | src/input/Input.php:159-252 | `build --output=2 -v src/` parses to the positional `build`, with `output` registered with no value and `v` holding `src/`. |
| TokenScenarios.StackedShortcutsParse | src/input/Input.php:202-242 | `-abc val` registers `a` and `b` with empty lists and gives `c` the value. |
| TokenScenarios.MarkerThenOption | src/input/Input.php:172-177 | `-- --not-an-option` gives one positional and no options. |
| TokenScenarios.CloneAfterMarkerKeepsName | src/input/Input.php:149-154 | After `-- build arg`, `clone(1)` re-parses `build arg` into two positionals. |
| Scenarios.BuildDefinitionConstructed | src/input/Definition.php:65-223 | A four-argument list builds exactly the expected definition, including its shortcut index and required count. |
| Scenarios.BuildCommandLine | src/input/Definition.php:269-278 | Resolving `build --output=2 -v src/` fails with MissingOptionValue for `output`, because the `=2` was dropped. |
| Scenarios.StackedShortcuts | src/input/Definition.php:269-285 | With `-abc val` the two flags resolve to present-but-null, and the REQUIRED `config` option gets `val`. |
| Scenarios.MarkerThenComplex | src/input/Definition.php:259-267 | After `--`, an optional COMPLEX parameter gets the list holding `--not-an-option`. |
| Scenarios.TooFewPositionals | src/input/Definition.php:249-257 | One positional against two required parameters gives TooFewParameters(2, 1). |
| RoundTrip.RoundTrip | src/input/Definition.php:247-288 | The definition must be valid, its arguments well-formed and its option names free of `=`. A resolved `Concrete` with no value starting with `-` is written out as tokens. Parsing and resolving those tokens gives back exactly that `Concrete`. |
| RoundTrip.EncodeParses | src/input/Input.php:158-235 | The written tokens parse to the parameter values as the positionals and each bound option's values under its long name, with no shortcuts. |
| RoundTrip.FoldBare | src/input/Input.php:158-164 | Tokens without a leading `-`, before any option, are appended to the positionals whatever follows them. |
| RoundTrip.AttachThen | src/input/Input.php:220-235 | Tokens without a leading `-`, after an option, are appended to that option's list whatever follows them. |
| RoundTrip.OptionGroup | src/input/Input.php:184-235 | `--name` followed by values records a fresh name with exactly those values. |
| RoundTrip.OptionTokensFold | src/input/Input.php:158-235 | A run of such groups with distinct names records exactly the expected long-option lists. |
| RoundTrip.LongMapAt | src/input/Input.php:220-235 | Each name written out maps to its option's values. A name not written keeps its earlier entry. |
| RoundTrip.StepNoEqualsKeys | src/input/Input.php:184-194 | No token makes the tokenizer record a long name containing `=`, or fill one. |
| RoundTrip.ParsedLongNames | src/input/Input.php:184-194 | No long-option key of any parse contains `=`. So an option whose name contains one (the name check allows it) is never found by its long name. |
| RoundTrip.BoundShape | src/input/Definition.php:269-285 | For a well-formed option, a bound null means a flag with a null default. A bound string means a single-valued option. A bound list means a COMPLEX option and is never empty. |
| RoundTrip.Rebind | src/input/Definition.php:269-285 | Give an option its bound value's strings as its long-option list, with no shortcuts, and it binds the same again. An unbound option that is not given stays unbound. |
| RoundTrip.OptionRebound | src/input/Definition.php:269-285 | In the re-parsed input each option of the definition binds exactly as in the original. |
| RoundTrip.OptionsAgain | src/input/Definition.php:269-285 | When every option binds the same, both resolves store the same options. |
| RoundTrip.ResolvedParameters | src/input/Definition.php:259-267 | A successful resolve fills each parameter slot from its token, from the tail of tokens when COMPLEX, or past the end from a non-null default. |
| RoundTrip.ParameterShape | src/input/Definition.php:259-267 | A held parameter stores a string when single-valued and a non-empty list when COMPLEX. |
| RoundTrip.EncodedParameterAt | src/input/Definition.php:259-267 | Within the written tokens, the i-th parameter's token (or tail of tokens) gives exactly its stored value. Past them, the original input had no token for it either. |
| RoundTrip.EncodedCount | src/input/Definition.php:249-257 | The written tokens hold at least as many positionals as the definition requires. |
| RoundTrip.ParameterRebound | src/input/Definition.php:259-267 | Each parameter slot is filled by the re-parse exactly as before. |
| RoundTrip.ParametersAgain | src/input/Definition.php:259-267 | Two fillings of the same slots that hold only declared names are the same map. |

## Left out

- I/O: `Application::run`, `outputSetting` and `exception` are left out. So are `Input::getDefaultTokens` (`$_SERVER['argv']`), the `Output` stream (`fopen`, `fwrite`, `fflush`) and `Descriptor`'s `describe*` drivers that call `writeln`.
- The `Formatter` and `strip_tags` are passed to `Write`/`Writeln` as function parameters, and `isDecorate` reads a modelled flag. `setFormatter` is not modelled.
- `Style::trueColor()` and `hefGracefully()` read the environment through a static cache. Their results are the boolean parameters `trueColor` and `hrefSupported`.
- `Style::setHref`, `unsetOptions` and the getters are not modelled. `setHref` is a field assignment. `unsetOptions` is the same walk as `setOptions` with `unsetOption`.
- The `preg_replace` that re-indents multi-line descriptions in `describeParameter`/`describeOption` is left out. `ParameterLine` and `OptionLine` take the already laid-out description.
- Descriptors.CommandLine: requires the name to fit the column. For a wider name `str_repeat` throws a `ValueError`, which the model does not represent.
- Descriptors.ParameterLine and Descriptors.OptionLine: require a stored default of the shape the mode gives it. Every checked constructor produces that shape.
- Commands.GetDefinitionWithApplication: the `withParameters` flag is dropped, because `Application::getDefinition()` ignores it. The application's definition is passed in. The branch for a command without an application is not modelled: reading the uninitialised typed property throws a PHP `Error` before the `null` test could succeed.
- PHP coercions are not modelled: numeric-string array keys, the `(int)` cast of mixed exit codes (the model takes an `int`), and byte indexing of multibyte short options in `-abc` stacks. `ksort` is modelled as a strict lexicographic order on names.
- `PHP_EOL` is `"\n"`.
- RoundTrip.RoundTrip: holds only for option names without `=` and for values that do not start with `-`. A name containing `=` is never recorded by its long spelling (RoundTrip.ParsedLongNames), and a value starting with `-` reads back as an option. The writer is the model's own, because the library defines none.
- `setParameters`/`setOptions` are not atomic. They clear the old state and then add one element at a time (src/input/Definition.php:111-118 and 181-186), so a failure leaves the elements before the failing one added. The model keeps that prefix.
- `build --output=2 -v src/` resolves to MissingOptionValue for `output`, because `--name=value` discards the `=value` part (src/input/Input.php:186-192). `Scenarios.BuildCommandLine` proves this.
- Definitions.NewDefinition: arguments are typed `Argument` (a parameter or an option), so the InvalidArgumentException that src/input/Definition.php:88 throws for any other element cannot arise. `new Definition(null)` is the empty list.
- Outputs.Writeln: `lines` is a `nat`, so the ValueError `str_repeat` throws for a negative `$lines` is not represented. The defaults `$message = ''` and `$lines = 1` are not modelled; callers pass both.
- Names and shortcuts are sequences of characters, while PHP measures and matches bytes. The column widths use `strlen` (src/descriptor/Descriptor.php:222-228 and 258-279), and the shortcut pattern has no `/u` flag (src/argument/Option.php:79). The model agrees with PHP only on ASCII names and shortcuts.

## Findings

| source | as written | input that shows it | evidently intended | confidence | as-written member | corrected member |
|---|---|---|---|---|---|---|
| src/argument/Option.php:79 | `preg_match('/^[^\s-]$/', $shortcut)`: PCRE's `$` also matches before a final newline, so a character followed by `"\n"` passes | shortcut `"a\n"` is accepted, and the help column for that option is then one wider than `normalizeOptionNameSpacing` computes | exactly one character that is neither whitespace nor `-` (the error message says "a non empty character") | high, not executed | Arguments.ShortcutNewlineAccepted, Descriptors.OptionWidthAsWrittenMismatch | Arguments.CheckShortcut, Descriptors.OptionWidthIsSynopsisLength |
