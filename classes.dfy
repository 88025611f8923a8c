/** The records shared by the screens: a listed map file and where it lives. */
module Classes {

  /** An Android string-resource id (`R.string.*`). The values are assigned
      by the build; the model fixes distinct placeholders. */
  type ResourceId = int

  const CREATE_NEW_FILE_DEVICE_STORAGE_LABEL: ResourceId := 1
  const CREATE_NEW_FILE_DEVICE_STORAGE_DESCRIPTION: ResourceId := 2
  const CREATE_NEW_FILE_APP_STORAGE_LABEL: ResourceId := 3
  const CREATE_NEW_FILE_APP_STORAGE_DESCRIPTION: ResourceId := 4

  /** Where a map file is stored: a location the user picks, or the app's
      private directory. */
  datatype StorageOption = DEVICE | APP {

    /** The enum constant's `name`. */
    function Name(): string
    {
      match this
      case DEVICE => "DEVICE"
      case APP => "APP"
    }

    function Label(): ResourceId
    {
      match this
      case DEVICE => CREATE_NEW_FILE_DEVICE_STORAGE_LABEL
      case APP => CREATE_NEW_FILE_APP_STORAGE_LABEL
    }

    function Description(): ResourceId
    {
      match this
      case DEVICE => CREATE_NEW_FILE_DEVICE_STORAGE_DESCRIPTION
      case APP => CREATE_NEW_FILE_APP_STORAGE_DESCRIPTION
    }
  }

  /** One entry of the file list. `timeStampID` is milliseconds since the
      epoch and doubles as the list key on screen. */
  datatype FileData = FileData(
    fileName: string,
    fileContent: string,
    storage: StorageOption,
    timeStampID: int)

  /** `FileData()` with every default taken; `now` is the clock reading the
      default timestamp is taken from. */
  function DefaultFileData(now: int): FileData
  {
    FileData("", "", DEVICE, now)
  }
}
