/** The fixed 4096-byte RAWv3 file header (RawLibrary/RawV3.cs): the camera
    series and sensor type codes, the header record, its documented byte
    layout, and the field-by-field sequential read that the reader performs. */
module RawHeader {
  import opened Common
  import opened BinaryIO

  /** `CameraSeries` codes (an enum over `ulong`; any stored value is kept). */
  const X_SERIES: nat := 0
  const S_SERIES: nat := 1
  const TRI_SERIES: nat := 2
  const Q_SERIES: nat := 3
  const PROMON_SERIES: nat := 4

  /** `SensorType` codes (an enum over `byte`; any stored value is kept). */
  const MONO: nat := 0
  const BG_GR: nat := 1
  const RG_GB: nat := 2
  const GB_RG: nat := 3
  const GR_BG: nat := 4

  /** `RAWHEADERV3.Size`. */
  const HEADER_SIZE: nat := 4096

  /** Every typed (fail-at-end) read of the header lies below this offset:
      the last one is the `Hdr` byte at 1328. */
  const TYPED_END: nat := 1329

  /** `RAWHEADERV3`. Numeric fields hold the unsigned value read; character
      fields are ASCII-decoded. */
  datatype RawHeaderV3 = RawHeaderV3(
    FileSignature: seq<byte>,
    FileVersion: nat,
    FileCreator: seq<char>,
    CameraSeries: nat,
    CameraVendorName: seq<char>,
    CameraModelName: seq<char>,
    CameraID: seq<char>,
    CameraVersion: seq<char>,
    CameraFirmwareVersion: seq<char>,
    CameraFPGAVersion: seq<char>,
    UserComment: seq<char>,
    RecordingDate: seq<char>,
    RecordingTime: seq<char>,
    ImageDataHeaderSize: nat,
    FPNHeaderSize: nat,
    ImageDataSize_NotUsed: nat,
    ColorFilterType: nat,
    FrameType: nat,
    OSD: nat,
    FPN: nat,
    Pixelsize: nat,
    FrameCount: nat,
    ImageSize: nat,
    FrameWidth: nat,
    FrameHeight: nat,
    SensorFrameWidth: nat,
    SensorFrameHeight: nat,
    SyncSource: nat,
    SyncRate: nat,
    ShutterValue: nat,
    TimeSource: nat,
    Frame0TimeStamp: nat,
    Frame0SubSec: nat,
    T0TimeStamp: nat,
    T0SubSec: nat,
    T0FrameIndex: nat,
    T0Frame: nat,
    OriginalSequenceLength: nat,
    MarkIn: nat,
    MarkOut: nat,
    BitCount: nat,
    BitMode: nat,
    Autoexposure: nat,
    EnableHorizontalFlip: nat,
    EnableVerticalFlip: nat,
    ImageRotation: nat,
    EnableEventmarkers: nat,
    PositionEventmarkers: nat,
    NumberofEventmarkers: nat,
    OsdMode: nat,
    OsdPosition: nat,
    OsdFontSize: nat,
    OsdFont: seq<char>,
    OsdFontStyle: seq<char>,
    OsdColor: seq<char>,
    ImageCorrection: nat,
    RedChannel: nat,
    GreenChannel: nat,
    BlueChannel: nat,
    Brightness: nat,
    Contrast: nat,
    Gamma: nat,
    Saturation: nat,
    Hdr: nat,
    Free: seq<byte>
  )

  /** The fields of the file and camera identification, as read in one stretch. */
  datatype IdentityFields = IdentityFields(
    FileSignature: seq<byte>,
    FileVersion: nat,
    FileCreator: seq<char>,
    CameraSeries: nat,
    CameraVendorName: seq<char>,
    CameraModelName: seq<char>,
    CameraID: seq<char>,
    CameraVersion: seq<char>
  )

  function IdentityAt(file: seq<byte>): IdentityFields
    requires |file| >= TYPED_END
  {
    IdentityFields(
      file[0..8],
      LE(file[8..16]),
      Ascii(file[16..80]),
      LE(file[80..88]),
      Ascii(file[88..144]),
      Ascii(file[144..208]),
      Ascii(file[208..272]),
      Ascii(file[272..336])
    )
  }

  method ReadIdentity(rd: BinaryReader) returns (r: Result<IdentityFields, IoError>)
    requires rd.Position == 0
    modifies rd
    ensures r.Ok? <==> |rd.Data| >= 88
    ensures r.Ok? && |rd.Data| >= TYPED_END ==> r.value == IdentityAt(rd.Data)
    ensures r.Ok? ==> rd.Position == if |rd.Data| < 336 then |rd.Data| else 336
  {
    var fileSignature := rd.ReadCount(8);
    var fileVersion :- rd.ReadLE(8);
    var fileCreator := rd.ReadChars(64);
    var cameraSeries :- rd.ReadLE(8);
    var cameraVendorName := rd.ReadChars(56);
    var cameraModelName := rd.ReadChars(64);
    var cameraID := rd.ReadChars(64);
    var cameraVersion := rd.ReadChars(64);
    r := Ok(IdentityFields(
      fileSignature,
      fileVersion,
      fileCreator,
      cameraSeries,
      cameraVendorName,
      cameraModelName,
      cameraID,
      cameraVersion
    ));
  }

  /** The fields of the firmware versions, the user comment and the recording date, as read in one stretch. */
  datatype CommentFields = CommentFields(
    CameraFirmwareVersion: seq<char>,
    CameraFPGAVersion: seq<char>,
    UserComment: seq<char>,
    RecordingDate: seq<char>,
    RecordingTime: seq<char>
  )

  function CommentAt(file: seq<byte>): CommentFields
    requires |file| >= TYPED_END
  {
    CommentFields(
      Ascii(file[336..400]),
      Ascii(file[400..464]),
      Ascii(file[464..976]),
      Ascii(file[976..992]),
      Ascii(file[992..1008])
    )
  }

  method ReadComment(rd: BinaryReader) returns (r: CommentFields)
    requires rd.Position == if |rd.Data| < 336 then |rd.Data| else 336
    modifies rd
    ensures |rd.Data| >= TYPED_END ==> r == CommentAt(rd.Data)
    ensures rd.Position == if |rd.Data| < 1008 then |rd.Data| else 1008
  {
    var cameraFirmwareVersion := rd.ReadChars(64);
    var cameraFPGAVersion := rd.ReadChars(64);
    var userComment := rd.ReadChars(512);
    var recordingDate := rd.ReadChars(16);
    var recordingTime := rd.ReadChars(16);
    r := CommentFields(
      cameraFirmwareVersion,
      cameraFPGAVersion,
      userComment,
      recordingDate,
      recordingTime
    );
  }

  /** The fields of the frame and pattern-noise table sizes and the sensor flags, as read in one stretch. */
  datatype LayoutFields = LayoutFields(
    ImageDataHeaderSize: nat,
    FPNHeaderSize: nat,
    ImageDataSize_NotUsed: nat,
    ColorFilterType: nat,
    FrameType: nat,
    OSD: nat,
    FPN: nat,
    Pixelsize: nat
  )

  function LayoutAt(file: seq<byte>): LayoutFields
    requires |file| >= TYPED_END
  {
    LayoutFields(
      LE(file[1008..1016]),
      LE(file[1016..1024]),
      LE(file[1024..1032]),
      LE(file[1032..1033]),
      LE(file[1033..1034]),
      LE(file[1034..1035]),
      LE(file[1035..1036]),
      LE(file[1036..1040])
    )
  }

  method ReadLayout(rd: BinaryReader) returns (r: Result<LayoutFields, IoError>)
    requires rd.Position == if |rd.Data| < 1008 then |rd.Data| else 1008
    modifies rd
    ensures r.Ok? <==> |rd.Data| >= 1040
    ensures r.Ok? && |rd.Data| >= TYPED_END ==> r.value == LayoutAt(rd.Data)
    ensures r.Ok? ==> rd.Position == if |rd.Data| < 1040 then |rd.Data| else 1040
  {
    var imageDataHeaderSize :- rd.ReadLE(8);
    var fPNHeaderSize :- rd.ReadLE(8);
    var imageDataSize_NotUsed :- rd.ReadLE(8);
    var colorFilterType :- rd.ReadLE(1);
    var frameType :- rd.ReadLE(1);
    var oSD :- rd.ReadLE(1);
    var fPN :- rd.ReadLE(1);
    var pixelsize :- rd.ReadLE(4);
    r := Ok(LayoutFields(
      imageDataHeaderSize,
      fPNHeaderSize,
      imageDataSize_NotUsed,
      colorFilterType,
      frameType,
      oSD,
      fPN,
      pixelsize
    ));
  }

  /** The fields of the frame count and the image and sensor geometry, as read in one stretch. */
  datatype GeometryFields = GeometryFields(
    FrameCount: nat,
    ImageSize: nat,
    FrameWidth: nat,
    FrameHeight: nat,
    SensorFrameWidth: nat,
    SensorFrameHeight: nat,
    SyncSource: nat,
    SyncRate: nat
  )

  function GeometryAt(file: seq<byte>): GeometryFields
    requires |file| >= TYPED_END
  {
    GeometryFields(
      LE(file[1040..1048]),
      LE(file[1048..1056]),
      LE(file[1056..1060]),
      LE(file[1060..1064]),
      LE(file[1064..1068]),
      LE(file[1068..1072]),
      LE(file[1072..1076]),
      LE(file[1076..1080])
    )
  }

  method ReadGeometry(rd: BinaryReader) returns (r: Result<GeometryFields, IoError>)
    requires rd.Position == if |rd.Data| < 1040 then |rd.Data| else 1040
    modifies rd
    ensures r.Ok? <==> |rd.Data| >= 1080
    ensures r.Ok? && |rd.Data| >= TYPED_END ==> r.value == GeometryAt(rd.Data)
    ensures r.Ok? ==> rd.Position == if |rd.Data| < 1080 then |rd.Data| else 1080
  {
    var frameCount :- rd.ReadLE(8);
    var imageSize :- rd.ReadLE(8);
    var frameWidth :- rd.ReadLE(4);
    var frameHeight :- rd.ReadLE(4);
    var sensorFrameWidth :- rd.ReadLE(4);
    var sensorFrameHeight :- rd.ReadLE(4);
    var syncSource :- rd.ReadLE(4);
    var syncRate :- rd.ReadLE(4);
    r := Ok(GeometryFields(
      frameCount,
      imageSize,
      frameWidth,
      frameHeight,
      sensorFrameWidth,
      sensorFrameHeight,
      syncSource,
      syncRate
    ));
  }

  /** The fields of the shutter and the time stamps, as read in one stretch. */
  datatype TimingFields = TimingFields(
    ShutterValue: nat,
    TimeSource: nat,
    Frame0TimeStamp: nat,
    Frame0SubSec: nat,
    T0TimeStamp: nat,
    T0SubSec: nat,
    T0FrameIndex: nat,
    T0Frame: nat
  )

  function TimingAt(file: seq<byte>): TimingFields
    requires |file| >= TYPED_END
  {
    TimingFields(
      LE(file[1080..1084]),
      LE(file[1084..1088]),
      LE(file[1088..1092]),
      LE(file[1092..1096]),
      LE(file[1096..1100]),
      LE(file[1100..1104]),
      LE(file[1104..1112]),
      LE(file[1112..1120])
    )
  }

  method ReadTiming(rd: BinaryReader) returns (r: Result<TimingFields, IoError>)
    requires rd.Position == if |rd.Data| < 1080 then |rd.Data| else 1080
    modifies rd
    ensures r.Ok? <==> |rd.Data| >= 1120
    ensures r.Ok? && |rd.Data| >= TYPED_END ==> r.value == TimingAt(rd.Data)
    ensures r.Ok? ==> rd.Position == if |rd.Data| < 1120 then |rd.Data| else 1120
  {
    var shutterValue :- rd.ReadLE(4);
    var timeSource :- rd.ReadLE(4);
    var frame0TimeStamp :- rd.ReadLE(4);
    var frame0SubSec :- rd.ReadLE(4);
    var t0TimeStamp :- rd.ReadLE(4);
    var t0SubSec :- rd.ReadLE(4);
    var t0FrameIndex :- rd.ReadLE(8);
    var t0Frame :- rd.ReadLE(8);
    r := Ok(TimingFields(
      shutterValue,
      timeSource,
      frame0TimeStamp,
      frame0SubSec,
      t0TimeStamp,
      t0SubSec,
      t0FrameIndex,
      t0Frame
    ));
  }

  /** The fields of the sequence marks and the bit depth, as read in one stretch. */
  datatype RecordingFields = RecordingFields(
    OriginalSequenceLength: nat,
    MarkIn: nat,
    MarkOut: nat,
    BitCount: nat,
    BitMode: nat,
    Autoexposure: nat,
    EnableHorizontalFlip: nat,
    EnableVerticalFlip: nat
  )

  function RecordingAt(file: seq<byte>): RecordingFields
    requires |file| >= TYPED_END
  {
    RecordingFields(
      LE(file[1120..1128]),
      LE(file[1128..1136]),
      LE(file[1136..1144]),
      LE(file[1144..1148]),
      LE(file[1148..1150]),
      LE(file[1150..1152]),
      LE(file[1152..1154]),
      LE(file[1154..1156])
    )
  }

  method ReadRecording(rd: BinaryReader) returns (r: Result<RecordingFields, IoError>)
    requires rd.Position == if |rd.Data| < 1120 then |rd.Data| else 1120
    modifies rd
    ensures r.Ok? <==> |rd.Data| >= 1156
    ensures r.Ok? && |rd.Data| >= TYPED_END ==> r.value == RecordingAt(rd.Data)
    ensures r.Ok? ==> rd.Position == if |rd.Data| < 1156 then |rd.Data| else 1156
  {
    var originalSequenceLength :- rd.ReadLE(8);
    var markIn :- rd.ReadLE(8);
    var markOut :- rd.ReadLE(8);
    var bitCount :- rd.ReadLE(4);
    var bitMode :- rd.ReadLE(2);
    var autoexposure :- rd.ReadLE(2);
    var enableHorizontalFlip :- rd.ReadLE(2);
    var enableVerticalFlip :- rd.ReadLE(2);
    r := Ok(RecordingFields(
      originalSequenceLength,
      markIn,
      markOut,
      bitCount,
      bitMode,
      autoexposure,
      enableHorizontalFlip,
      enableVerticalFlip
    ));
  }

  /** The fields of the event markers and the on-screen display mode, as read in one stretch. */
  datatype MarkersFields = MarkersFields(
    ImageRotation: nat,
    EnableEventmarkers: nat,
    PositionEventmarkers: nat,
    NumberofEventmarkers: nat,
    OsdMode: nat,
    OsdPosition: nat,
    OsdFontSize: nat
  )

  function MarkersAt(file: seq<byte>): MarkersFields
    requires |file| >= TYPED_END
  {
    MarkersFields(
      LE(file[1156..1160]),
      LE(file[1160..1162]),
      LE(file[1162..1164]),
      LE(file[1164..1168]),
      LE(file[1168..1170]),
      LE(file[1170..1172]),
      LE(file[1172..1176])
    )
  }

  method ReadMarkers(rd: BinaryReader) returns (r: Result<MarkersFields, IoError>)
    requires rd.Position == if |rd.Data| < 1156 then |rd.Data| else 1156
    modifies rd
    ensures r.Ok? <==> |rd.Data| >= 1176
    ensures r.Ok? && |rd.Data| >= TYPED_END ==> r.value == MarkersAt(rd.Data)
    ensures r.Ok? ==> rd.Position == if |rd.Data| < 1176 then |rd.Data| else 1176
  {
    var imageRotation :- rd.ReadLE(4);
    var enableEventmarkers :- rd.ReadLE(2);
    var positionEventmarkers :- rd.ReadLE(2);
    var numberofEventmarkers :- rd.ReadLE(4);
    var osdMode :- rd.ReadLE(2);
    var osdPosition :- rd.ReadLE(2);
    var osdFontSize :- rd.ReadLE(4);
    r := Ok(MarkersFields(
      imageRotation,
      enableEventmarkers,
      positionEventmarkers,
      numberofEventmarkers,
      osdMode,
      osdPosition,
      osdFontSize
    ));
  }

  /** The fields of the on-screen display font, as read in one stretch. */
  datatype OsdTextFields = OsdTextFields(
    OsdFont: seq<char>,
    OsdFontStyle: seq<char>,
    OsdColor: seq<char>
  )

  function OsdTextAt(file: seq<byte>): OsdTextFields
    requires |file| >= TYPED_END
  {
    OsdTextFields(
      Ascii(file[1176..1216]),
      Ascii(file[1216..1280]),
      Ascii(file[1280..1320])
    )
  }

  method ReadOsdText(rd: BinaryReader) returns (r: OsdTextFields)
    requires rd.Position == if |rd.Data| < 1176 then |rd.Data| else 1176
    modifies rd
    ensures |rd.Data| >= TYPED_END ==> r == OsdTextAt(rd.Data)
    ensures rd.Position == if |rd.Data| < 1320 then |rd.Data| else 1320
  {
    var osdFont := rd.ReadChars(40);
    var osdFontStyle := rd.ReadChars(64);
    var osdColor := rd.ReadChars(40);
    r := OsdTextFields(
      osdFont,
      osdFontStyle,
      osdColor
    );
  }

  /** The fields of the colour correction settings, as read in one stretch. */
  datatype ColourFields = ColourFields(
    ImageCorrection: nat,
    RedChannel: nat,
    GreenChannel: nat,
    BlueChannel: nat,
    Brightness: nat,
    Contrast: nat,
    Gamma: nat,
    Saturation: nat,
    Hdr: nat
  )

  function ColourAt(file: seq<byte>): ColourFields
    requires |file| >= TYPED_END
  {
    ColourFields(
      LE(file[1320..1321]),
      LE(file[1321..1322]),
      LE(file[1322..1323]),
      LE(file[1323..1324]),
      LE(file[1324..1325]),
      LE(file[1325..1326]),
      LE(file[1326..1327]),
      LE(file[1327..1328]),
      LE(file[1328..1329])
    )
  }

  method ReadColour(rd: BinaryReader) returns (r: Result<ColourFields, IoError>)
    requires rd.Position == if |rd.Data| < 1320 then |rd.Data| else 1320
    modifies rd
    ensures r.Ok? <==> |rd.Data| >= 1329
    ensures r.Ok? && |rd.Data| >= TYPED_END ==> r.value == ColourAt(rd.Data)
    ensures r.Ok? ==> rd.Position == if |rd.Data| < 1329 then |rd.Data| else 1329
  {
    var imageCorrection :- rd.ReadLE(1);
    var redChannel :- rd.ReadLE(1);
    var greenChannel :- rd.ReadLE(1);
    var blueChannel :- rd.ReadLE(1);
    var brightness :- rd.ReadLE(1);
    var contrast :- rd.ReadLE(1);
    var gamma :- rd.ReadLE(1);
    var saturation :- rd.ReadLE(1);
    var hdr :- rd.ReadLE(1);
    r := Ok(ColourFields(
      imageCorrection,
      redChannel,
      greenChannel,
      blueChannel,
      brightness,
      contrast,
      gamma,
      saturation,
      hdr
    ));
  }

  /** The documented layout: each field decoded at the offset the header
      declaration gives for it. Only `Free` may be cut short by the end of the
      file. */
  function HeaderAt(file: seq<byte>): (h: RawHeaderV3)
    requires |file| >= TYPED_END
  {
    RawHeaderV3(
      FileSignature := file[0..8],
      FileVersion := LE(file[8..16]),
      FileCreator := Ascii(file[16..80]),
      CameraSeries := LE(file[80..88]),
      CameraVendorName := Ascii(file[88..144]),
      CameraModelName := Ascii(file[144..208]),
      CameraID := Ascii(file[208..272]),
      CameraVersion := Ascii(file[272..336]),
      CameraFirmwareVersion := Ascii(file[336..400]),
      CameraFPGAVersion := Ascii(file[400..464]),
      UserComment := Ascii(file[464..976]),
      RecordingDate := Ascii(file[976..992]),
      RecordingTime := Ascii(file[992..1008]),
      ImageDataHeaderSize := LE(file[1008..1016]),
      FPNHeaderSize := LE(file[1016..1024]),
      ImageDataSize_NotUsed := LE(file[1024..1032]),
      ColorFilterType := LE(file[1032..1033]),
      FrameType := LE(file[1033..1034]),
      OSD := LE(file[1034..1035]),
      FPN := LE(file[1035..1036]),
      Pixelsize := LE(file[1036..1040]),
      FrameCount := LE(file[1040..1048]),
      ImageSize := LE(file[1048..1056]),
      FrameWidth := LE(file[1056..1060]),
      FrameHeight := LE(file[1060..1064]),
      SensorFrameWidth := LE(file[1064..1068]),
      SensorFrameHeight := LE(file[1068..1072]),
      SyncSource := LE(file[1072..1076]),
      SyncRate := LE(file[1076..1080]),
      ShutterValue := LE(file[1080..1084]),
      TimeSource := LE(file[1084..1088]),
      Frame0TimeStamp := LE(file[1088..1092]),
      Frame0SubSec := LE(file[1092..1096]),
      T0TimeStamp := LE(file[1096..1100]),
      T0SubSec := LE(file[1100..1104]),
      T0FrameIndex := LE(file[1104..1112]),
      T0Frame := LE(file[1112..1120]),
      OriginalSequenceLength := LE(file[1120..1128]),
      MarkIn := LE(file[1128..1136]),
      MarkOut := LE(file[1136..1144]),
      BitCount := LE(file[1144..1148]),
      BitMode := LE(file[1148..1150]),
      Autoexposure := LE(file[1150..1152]),
      EnableHorizontalFlip := LE(file[1152..1154]),
      EnableVerticalFlip := LE(file[1154..1156]),
      ImageRotation := LE(file[1156..1160]),
      EnableEventmarkers := LE(file[1160..1162]),
      PositionEventmarkers := LE(file[1162..1164]),
      NumberofEventmarkers := LE(file[1164..1168]),
      OsdMode := LE(file[1168..1170]),
      OsdPosition := LE(file[1170..1172]),
      OsdFontSize := LE(file[1172..1176]),
      OsdFont := Ascii(file[1176..1216]),
      OsdFontStyle := Ascii(file[1216..1280]),
      OsdColor := Ascii(file[1280..1320]),
      ImageCorrection := LE(file[1320..1321]),
      RedChannel := LE(file[1321..1322]),
      GreenChannel := LE(file[1322..1323]),
      BlueChannel := LE(file[1323..1324]),
      Brightness := LE(file[1324..1325]),
      Contrast := LE(file[1325..1326]),
      Gamma := LE(file[1326..1327]),
      Saturation := LE(file[1327..1328]),
      Hdr := LE(file[1328..1329]),
      Free := Take(file, 1329, 2767)
    )
  }

  /** `ReadHeader`: the fields are read one after another from the start of
      the stream. The reads land on the documented offsets, consume exactly
      `HEADER_SIZE` bytes of a long enough file, and fail only when a typed
      read meets the end of the stream. */
  method ReadHeader(rd: BinaryReader) returns (r: Result<RawHeaderV3, IoError>)
    requires rd.Position == 0
    modifies rd
    ensures r.Ok? <==> |rd.Data| >= TYPED_END
    ensures r.Ok? ==> r.value == HeaderAt(rd.Data)
    ensures r.Ok? ==> rd.Position == if |rd.Data| < HEADER_SIZE then |rd.Data| else HEADER_SIZE
  {
    var identity :- ReadIdentity(rd);
    var comment := ReadComment(rd);
    var layout :- ReadLayout(rd);
    var geometry :- ReadGeometry(rd);
    var timing :- ReadTiming(rd);
    var recording :- ReadRecording(rd);
    var markers :- ReadMarkers(rd);
    var osdText := ReadOsdText(rd);
    var colour :- ReadColour(rd);
    var free := rd.ReadCount(2767);
    r := Ok(RawHeaderV3(
      identity.FileSignature,
      identity.FileVersion,
      identity.FileCreator,
      identity.CameraSeries,
      identity.CameraVendorName,
      identity.CameraModelName,
      identity.CameraID,
      identity.CameraVersion,
      comment.CameraFirmwareVersion,
      comment.CameraFPGAVersion,
      comment.UserComment,
      comment.RecordingDate,
      comment.RecordingTime,
      layout.ImageDataHeaderSize,
      layout.FPNHeaderSize,
      layout.ImageDataSize_NotUsed,
      layout.ColorFilterType,
      layout.FrameType,
      layout.OSD,
      layout.FPN,
      layout.Pixelsize,
      geometry.FrameCount,
      geometry.ImageSize,
      geometry.FrameWidth,
      geometry.FrameHeight,
      geometry.SensorFrameWidth,
      geometry.SensorFrameHeight,
      geometry.SyncSource,
      geometry.SyncRate,
      timing.ShutterValue,
      timing.TimeSource,
      timing.Frame0TimeStamp,
      timing.Frame0SubSec,
      timing.T0TimeStamp,
      timing.T0SubSec,
      timing.T0FrameIndex,
      timing.T0Frame,
      recording.OriginalSequenceLength,
      recording.MarkIn,
      recording.MarkOut,
      recording.BitCount,
      recording.BitMode,
      recording.Autoexposure,
      recording.EnableHorizontalFlip,
      recording.EnableVerticalFlip,
      markers.ImageRotation,
      markers.EnableEventmarkers,
      markers.PositionEventmarkers,
      markers.NumberofEventmarkers,
      markers.OsdMode,
      markers.OsdPosition,
      markers.OsdFontSize,
      osdText.OsdFont,
      osdText.OsdFontStyle,
      osdText.OsdColor,
      colour.ImageCorrection,
      colour.RedChannel,
      colour.GreenChannel,
      colour.BlueChannel,
      colour.Brightness,
      colour.Contrast,
      colour.Gamma,
      colour.Saturation,
      colour.Hdr,
      free
    ));
  }
}
