# Eye On Water: configuration flow and flag sensors, in Dafny

This project models the decision logic of the Eye On Water integration for
Home Assistant. The integration exposes water-meter readings and leak and
empty-pipe flags from the Eye On Water cloud service. Two pieces are modelled.

- **The configuration flow** (`config_flow.dfy`, module `ConfigFlow`).
  - The domain selector maps to an API host and a unit system (`CreateAccountFromConfig`).
  - The outcome of the client's `authenticate()` call becomes a form error code (`ValidateInput`, `FormErrorCode`).
  - `AsyncStepUser` ends a step in one of four ways: show the form, show it with an error, abort because the account is already configured, or create a config entry.
  - `config_flow_properties.dfy` holds the lemmas that single out classes of inputs or relate two runs of the step.
- **The flag sensors** (`binary_sensor.dfy`, module `BinarySensor`).
  - `SetupEntry` expands every meter into one sensor per flag descriptor.
  - `NewSensor` derives each sensor's unique id and device from its meter.
  - `_state` and `_available` change on a coordinator refresh (`StateUpdate`) and on attach with optional restore (`AddedToHass`).
  - `is_on` compares `_state` with `True` under Python's equality (`IsOn`).
  - `sensor_lifecycle.dfy` follows a sensor through any sequence of refreshes and attaches.
  - `sensor_identity.dfy` proves that the unique ids created at setup are distinct when the meters' uuids are pairwise distinct.

Everything outside this repository's logic becomes an input:

- the API client's authentication result, as the tag `AuthOutcome`;
- the unique ids of already-configured entries, as a set of strings;
- the coordinator's `last_update_success`, as a boolean;
- the meter's `get_flags`, as a function from flag key to value;
- the persisted state from the previous session, as an optional string.

`wrappers.dfy` holds the shared `Option` and `Result` types.

The integration's `DOMAIN` constant is opaque: it is a constant without a
definition. The form keys use Home Assistant's values: `"domain"`,
`"username"` and `"password"`. The abort reason is the host's
`"already_configured"`.

### Errors the broad handler catches

An unsupported domain selector does not escape the flow. `WrongDomain`
subclasses `HomeAssistantError`, so the broad `except Exception` handler
(config_flow.py:77-79) catches it, and the form is redisplayed with
`"unknown"`; see `OtherFailureShowsUnknown`.

A missing username or password raises `KeyError` in
`create_account_from_config`. The same handler catches it, so it also shows
`"unknown"`.

## Model

| member | source | states |
|---|---|---|
| ConfigFlow.CreateAccountFromConfig | custom_components/eyeonwater/config_flow.py:23-39 | Succeeds exactly for a supported selector with both credentials present. On success, the host is "eyeonwater." followed by the selector, the metric flag is set exactly for "ca", and username and password are copied unchanged. An unsupported selector gives WrongDomain. Otherwise a missing username is reported before a missing password. |
| ConfigFlow.ValidateInput | custom_components/eyeonwater/config_flow.py:41-58 | Account errors pass through unchanged. Success means the account was built and authentication succeeded, and then the title is the username. Timeout, ClientError and API error give CannotConnect. An auth error gives InvalidAuth. Any other `Exception` subclass passes through as unexpected. |
| ConfigFlow.FormErrorCode | custom_components/eyeonwater/config_flow.py:73-79 | "cannot_connect" exactly for CannotConnect and "invalid_auth" exactly for InvalidAuth. "unknown" exactly for every other `Exception` that reaches the handlers, including WrongDomain and KeyError. |
| ConfigFlow.AsyncStepUser | custom_components/eyeonwater/config_flow.py:66-90 | No input shows the form with no errors. A validation failure shows the form with its error code under "base" and leaves the unique id alone. After a successful validation, the unique id becomes the username. The step aborts with "already_configured" exactly when that id is already configured. Otherwise it creates an entry titled with the username whose data is the form as submitted. |
| ConfigFlowProperties.ComSelectsUsService | custom_components/eyeonwater/config_flow.py:29-31 | Selector "com" gives host "eyeonwater.com" with the metric flag off. |
| ConfigFlowProperties.CaSelectsCanadianService | custom_components/eyeonwater/config_flow.py:32-34 | Selector "ca" gives host "eyeonwater.ca" with the metric flag on. |
| ConfigFlowProperties.MissingDomainActsAsCom | custom_components/eyeonwater/config_flow.py:24-27 | A form without a domain field builds the same account and validates the same as the form with "com" added. The step sets the same unique id and ends the same way, except that a created entry stores the form as submitted (its title is the same). |
| ConfigFlowProperties.WrongDomainNeverAuthenticates | custom_components/eyeonwater/config_flow.py:47-51 | For an unsupported selector, validation fails with WrongDomain whatever authenticate() would have done. The account is rejected before the client is used. |
| ConfigFlowProperties.ConnectivityFailureShowsCannotConnect | custom_components/eyeonwater/config_flow.py:52-53 | A timeout, transport error or API error redisplays the form with "cannot_connect", keeps the unique id, and creates nothing. |
| ConfigFlowProperties.AuthRejectionShowsInvalidAuth | custom_components/eyeonwater/config_flow.py:54-55 | A rejected login redisplays the form with "invalid_auth" and creates nothing. |
| ConfigFlowProperties.OtherFailureShowsUnknown | custom_components/eyeonwater/config_flow.py:77-79 | Any other `Exception` redisplays the form with "unknown" instead of ending the flow. This includes an unsupported selector and a missing credential. |
| ConfigFlowProperties.FormErrorsAreEmptyOnlyWithoutInput | custom_components/eyeonwater/config_flow.py:88-90 | The form has an empty error map exactly when nothing was submitted. After a submission, a shown form carries exactly one of the three codes under "base". |
| ConfigFlowProperties.SecondSetupOfSameAccountAborts | custom_components/eyeonwater/config_flow.py:81-84 | Suppose a submission created an entry. With its unique id now configured, the same submission aborts with "already_configured", so there is at most one entry per username. |
| ConfigFlowProperties.CreatedEntryRecordsTheSubmission | custom_components/eyeonwater/config_flow.py:83-86 | Successful authentication of a new username sets the unique id to the username and creates an entry with that title and the unmodified form as data. |
| BinarySensor.NewSensor | custom_components/eyeonwater/binary_sensor.py:54-72 | A new sensor has the constructor's identity: unique id key + "_" + uuid, the description's name, and a device identified by (DOMAIN, uuid) and named "Water Meter " + meter id. `_state` is None, `_available` is False, and it reports off. |
| BinarySensor.StateUpdate | custom_components/eyeonwater/binary_sensor.py:79-85 | Only the two mutable attributes change. `_available` becomes the refresh's success flag. `_state` becomes get_flags(key) after a successful refresh and is kept after a failed one. |
| BinarySensor.AddedToHass | custom_components/eyeonwater/binary_sensor.py:87-100 | If the coordinator already succeeded, or nothing was persisted, nothing changes. Otherwise the persisted string becomes `_state` and `_available` becomes True, and such a restored sensor reports off. |
| BinarySensor.SetupEntry | custom_components/eyeonwater/binary_sensor.py:38-48 | Returns 2 × the number of meters sensors. Sensor number 2·m + d is NewSensor(meter m, descriptor d), so the list is meter-major in descriptor order. |
| SensorIdentity.SetupOrder | custom_components/eyeonwater/binary_sensor.py:24-35 | For each meter, setup creates its Leak sensor and then its EmptyPipe sensor, both bound to that meter. |
| SensorIdentity.UniqueIdRoundTrip | custom_components/eyeonwater/binary_sensor.py:67 | Splitting a sensor's unique id at its first underscore gives back the flag key and the meter uuid. |
| SensorIdentity.SetupUniqueIdsDistinct | custom_components/eyeonwater/binary_sensor.py:43-67 | If the meters' uuids are pairwise distinct, so are the unique ids of all sensors created at setup. |
| SensorIdentity.SetupDevices | custom_components/eyeonwater/binary_sensor.py:69-72 | Each sensor's device is identified by (DOMAIN, its meter's uuid) and named "Water Meter " + meter id. When the meters' uuids are pairwise distinct, two sensors share a device identifier exactly when they belong to the same meter. |
| SensorLifecycle.IsOnExactlyForTrue | custom_components/eyeonwater/binary_sensor.py:74-77 | is_on holds exactly when the state is True or the integer 1, the values Python's == finds equal to True. Strings and None report off. |
| SensorLifecycle.RestoredStateReportsOff | custom_components/eyeonwater/binary_sensor.py:98-100 | A restore sets `_available` to True, and the restored string, such as "on", reports off. |
| SensorLifecycle.FailedRefreshKeepsReading | custom_components/eyeonwater/binary_sensor.py:82-84 | A failed refresh sets `_available` to False and leaves is_on unchanged. |
| SensorLifecycle.StateUpdateIdempotent | custom_components/eyeonwater/binary_sensor.py:80-84 | Handling the same refresh twice equals handling it once. |
| SensorLifecycle.AddedToHassIdempotent | custom_components/eyeonwater/binary_sensor.py:95-100 | Attaching twice with the same inputs equals attaching once. |
| SensorLifecycle.Run | custom_components/eyeonwater/binary_sensor.py:79-100 | No sequence of refreshes and attaches changes a sensor's identity: meter, description, unique id, name or device. |
| SensorLifecycle.RunReflectsLastWrite | custom_components/eyeonwater/binary_sensor.py:79-100 | After any sequence of events, _state is the value of the latest event that wrote it, or the initial value if none did. _available likewise. A successful refresh writes the flag value. A failed refresh writes only `_available` = False. An attach writes only when it restores. |
| SensorLifecycle.FailedRefreshLastMeansUnavailable | custom_components/eyeonwater/binary_sensor.py:82-84 | A sequence ending in a failed refresh leaves `_available` False whatever came before, and is_on is what it was before that refresh. |
| SensorLifecycle.NoWriteMeansOff | custom_components/eyeonwater/binary_sensor.py:63-65 | A new sensor that has seen no successful refresh and no restore still holds None and reports off. |

## Left out

- The API client (`eow`) is not part of this model. Its HTTP session, its authentication protocol, how `get_flags` computes a flag, and the `Meter` internals are all left out. Authentication is the input tag `AuthOutcome`, a meter is its uuid and meter id, and `get_flags` is a function parameter.
- The relation between `EyeOnWaterAuthError` and `EyeOnWaterAPIError` cannot be seen. If the auth error subclassed the API error, the first handler would catch it and report "cannot_connect". The model treats them as distinct.
- `Meter.meter_info` is assumed to carry a `meter_id` entry. A missing entry would raise `KeyError` during setup; that case is not modelled.
- Home Assistant mechanics are left out: `async_write_ha_state`, listener registration and `async_on_remove`, the entity registry, the restore-state store, `CoordinatorEntity`'s own `available`, and the `update_before_add=False` argument of `async_add_entities`.
- `async_set_unique_id` can abort when another flow with the same id is in progress. That is host behaviour and is not modelled.
- The voluptuous schema is not applied, so its `default="com"` never adds a domain field to the form. Only `create_account_from_config`'s fallback to `"com"` when the field is missing is modelled, and the stored entry keeps the form as submitted. Logging and `async`/`await` scheduling are left out too.
- The coordinator's success flag is given separately with each event. The model does not relate one event's flag to the next.
- ConfigFlow.AuthOutcome covers only `Exception` subclasses. A `BaseException` that is not an `Exception`, such as `asyncio.CancelledError` or `KeyboardInterrupt`, raised by `authenticate()` escapes `async_step_user` instead of showing "unknown"; the model has no such outcome.
- `IsOn` does not model floats. A flag value of `1.0` would also compare equal to `True` in Python; the modelled values are None, bools, integers and strings.
- Each call of `AsyncStepUser` models one step of a flow. The flow's unique id before the step is an input (None for a new flow); the host's bookkeeping across steps is not modelled.
